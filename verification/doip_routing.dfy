/** The joint invariant of the connection table, the channel table and the two routing maps. */
module DoipRouting {
  import opened Bytes
  import opened DoipFrame
  import opened DoipModel
  import opened DoipRoutingTable

  /** Which tester each active connection serves, and the channel that goes with it. */
  function Routes(conns: map<nat, Connection>): map<nat, nat> {
    map fd | fd in conns && conns[fd].IsActive() :: conns[fd].tester
  }

  function ChannelsOf(conns: map<nat, Connection>): map<nat, Channel> {
    map fd | fd in conns && conns[fd].IsActive() :: Channel(fd, conns[fd].tester)
  }

  /** A socket is routed to an address exactly when its connection is active with that tester, exactly
      the routed sockets have a channel, and no more sockets are routed than the entity advertises. */
  ghost predicate Consistent(cfg: Config, s: Server) {
    && Inverse(s.routing)
    && s.routing.fdToAddress == Routes(s.conns)
    && s.channels == ChannelsOf(s.conns)
    && |s.routing.addressToFd| <= cfg.maxOpenSockets
  }

  function ActiveFds(s: Server): set<nat> {
    set fd | fd in s.conns && s.conns[fd].IsActive()
  }

  lemma ActiveCount(cfg: Config, s: Server)
    requires Consistent(cfg, s)
    ensures ActiveFds(s) == s.routing.fdToAddress.Keys == s.channels.Keys
    ensures |ActiveFds(s)| == |s.routing.addressToFd|
  {
    InverseSize(s.routing);
    assert ActiveFds(s) == s.routing.fdToAddress.Keys;
  }

  // What one routing activation request does.

  /** The request is well formed, of the default type, names no tester owned by another socket, does
      not change the tester of its own socket, and does not need a socket more than the entity has. */
  ghost predicate Granted(cfg: Config, s: Server, fd: nat, payload: seq<Byte>) {
    && ActivationLength(|payload|)
    && payload[2] == 0
    && fd in s.conns
    && var tester := FromBe16(payload[..2]);
    && (forall other ::
          other in s.conns && s.conns[other].IsActive() && s.conns[other].tester == tester ==> other == fd)
    && (if s.conns[fd].IsActive() then s.conns[fd].tester == tester else |ActiveFds(s)| < cfg.maxOpenSockets as int)
  }

  lemma ActivationCode(cfg: Config, s: Server, fd: nat, payload: seq<Byte>)
    requires Consistent(cfg, s) && fd in s.conns && ActivationLength(|payload|)
    ensures Granted(cfg, s, fd, payload) <==>
            RoutingVerdict(cfg, s, fd, FromBe16(payload[..2]), payload[2]) == ROUTING_SUCCESS
  {
    hide FromBe16;
    ActiveCount(cfg, s);
    var tester := FromBe16(payload[..2]);
    forall other | other in s.conns && s.conns[other].IsActive() && s.conns[other].tester == tester
      ensures tester in s.routing.addressToFd && s.routing.addressToFd[tester] == other
    {
      assert other in s.routing.fdToAddress && s.routing.fdToAddress[other] == tester;
    }
    if tester in s.routing.addressToFd {
      var owner := s.routing.addressToFd[tester];
      assert owner in s.routing.fdToAddress && s.routing.fdToAddress[owner] == tester;
    }
  }

  /** Where no partner has to be dropped, activation only adds the pair. */
  lemma ActivateEffect(r: Routing, fd: nat, tester: nat)
    requires Inverse(r)
    requires fd in r.fdToAddress ==> r.fdToAddress[fd] == tester
    requires tester in r.addressToFd ==> r.addressToFd[tester] == fd
    ensures Activate(r, fd, tester) == Routing(r.addressToFd[tester := fd], r.fdToAddress[fd := tester])
    ensures |r.addressToFd[tester := fd]| == if fd in r.fdToAddress then |r.addressToFd| else |r.addressToFd| + 1
  {
    InsertSize(r.addressToFd, tester, fd);
    if fd in r.fdToAddress {
      assert r.fdToAddress[fd] == tester;
      ReplacedPair(r, fd, tester);
    } else {
      hide Inverse;
      assert tester !in r.addressToFd by { NoStranger(r, fd, tester); }
    }
  }

  lemma NoStranger(r: Routing, fd: nat, tester: nat)
    requires Inverse(r) && fd !in r.fdToAddress && (tester in r.addressToFd ==> r.addressToFd[tester] == fd)
    ensures tester !in r.addressToFd
  {
  }

  lemma InsertSize<K, V>(m: map<K, V>, k: K, v: V)
    ensures |m[k := v]| == if k in m then |m| else |m| + 1
  {
    assert m[k := v].Keys == m.Keys + {k};
  }

  /** Dropping a pair and entering it again. */
  lemma ReplacedPair(r: Routing, fd: nat, tester: nat)
    requires fd in r.fdToAddress && r.fdToAddress[fd] == tester
    requires tester in r.addressToFd && r.addressToFd[tester] == fd
    ensures Activate(r, fd, tester) == Routing(r.addressToFd[tester := fd], r.fdToAddress[fd := tester])
  {
    assert DeactivateFd(r, fd) == Routing(Without(r.addressToFd, tester), Without(r.fdToAddress, fd));
    Reenter(r.addressToFd, tester, fd);
    Reenter(r.fdToAddress, fd, tester);
  }

  lemma Reenter<K, V>(m: map<K, V>, k: K, v: V)
    ensures Without(m, k)[k := v] == m[k := v]
  {
  }

  lemma RoutesInsert(conns: map<nat, Connection>, fd: nat, conn: Connection)
    requires conn.IsActive()
    ensures Routes(conns[fd := conn]) == Routes(conns)[fd := conn.tester]
    ensures ChannelsOf(conns[fd := conn]) == ChannelsOf(conns)[fd := Channel(fd, conn.tester)]
  {
  }

  lemma GrantKeepsConsistent(cfg: Config, s: Server, fd: nat, tester: nat, activationType: Byte, now: int)
    requires Consistent(cfg, s) && fd in s.conns
    requires RoutingVerdict(cfg, s, fd, tester, activationType) == ROUTING_SUCCESS
    ensures Consistent(cfg, Grant(cfg, s, fd, tester, activationType, now))
    ensures Grant(cfg, s, fd, tester, activationType, now).routing.addressToFd == s.routing.addressToFd[tester := fd]
    ensures ActiveFds(Grant(cfg, s, fd, tester, activationType, now)) == ActiveFds(s) + {fd}
  {
    ActivateEffect(s.routing, fd, tester);
    ActivatePairs(s.routing, fd, tester);
    hide Activate, Inverse;
    RoutesInsert(s.conns, fd, Grant(cfg, s, fd, tester, activationType, now).conns[fd]);
    hide Routes, ChannelsOf;
  }

  /** A granted request makes its socket active for the tester and changes no other connection; a
      refused one changes no container at all, and one that is well formed has its socket shut down. */
  lemma ActivationOutcome(cfg: Config, s: Server, fd: nat, payload: seq<Byte>, now: int)
    requires Consistent(cfg, s) && fd in s.conns
    ensures var t := HandleRoutingActivation(cfg, s, fd, payload, now);
      if Granted(cfg, s, fd, payload) then
        && Consistent(cfg, t)
        && ActiveFds(t) == ActiveFds(s) + {fd}
        && t.conns == s.conns[fd := t.conns[fd]] && t.conns[fd].rx == s.conns[fd].rx
        && t.conns[fd].tester == FromBe16(payload[..2])
        && t.conns[fd].generalDeadline == now + cfg.generalInactivity
        && t.routing.addressToFd == s.routing.addressToFd[t.conns[fd].tester := fd]
      else
        && t == s.(log := t.log)
        && s.log <= t.log
        && (ActivationLength(|payload|) <==> Shutdown(fd, now) in t.log[|s.log|..])
  {
    hide FromBe16, FrameBytes, RoutingVerdict, Consistent;
    if ActivationLength(|payload|) {
      var tester := FromBe16(payload[..2]);
      ActivationCode(cfg, s, fd, payload);
      if Granted(cfg, s, fd, payload) {
        GrantKeepsConsistent(cfg, s, fd, tester, payload[2], now);
        LogKeepsConsistent(cfg, Grant(cfg, s, fd, tester, payload[2], now),
                           RoutingResponse(cfg, fd, now, tester, ROUTING_SUCCESS));
      }
    }
  }

  lemma LogKeepsConsistent(cfg: Config, s: Server, es: seq<Event>)
    ensures Consistent(cfg, Log(s, es)) == Consistent(cfg, s)
  {
  }

  lemma EraseKeepsConsistent(cfg: Config, s: Server, fd: nat, now: int)
    requires Consistent(cfg, s)
    ensures var t := Erase(s, fd, now);
      Consistent(cfg, t) && ActiveFds(t) == ActiveFds(s) - {fd} && t.conns == Without(s.conns, fd)
  {
    var t := Erase(s, fd, now);
    if fd in s.routing.fdToAddress {
      WithoutSize(s.routing.addressToFd, s.routing.fdToAddress[fd]);
    } else {
      assert fd in s.conns ==> !s.conns[fd].IsActive();
    }
    assert t.routing.fdToAddress == Without(s.routing.fdToAddress, fd);
  }
}
