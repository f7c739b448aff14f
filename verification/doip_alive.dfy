/** What a maintenance tick does to each connection, told from outside: by the chunks that came in and the
    frames that went out. */
module DoipAlive {
  import opened Bytes
  import opened DoipFrame
  import opened DoipModel
  import opened DoipRoutingTable
  import opened DoipDelivery
  import opened DoipTimers

  /** When the last chunk came in on a socket, since it was last closed. */
  function LastHeard(ops: seq<Op>, fd: nat): Option<int> {
    if ops == [] then None else
    match ops[|ops| - 1]
    case Data(g, _, at) => if g == fd then Some(at) else LastHeard(ops[..|ops| - 1], fd)
    case Disconnect(g, _) => if g == fd then None else LastHeard(ops[..|ops| - 1], fd)
    case _ => LastHeard(ops[..|ops| - 1], fd)
  }

  /** When the first one came in. */
  function FirstHeard(ops: seq<Op>, fd: nat): Option<int> {
    if ops == [] then None else
    var before := FirstHeard(ops[..|ops| - 1], fd);
    match ops[|ops| - 1]
    case Data(g, _, at) => if g == fd && before.None? then Some(at) else before
    case Disconnect(g, _) => if g == fd then None else before
    case _ => before
  }

  /** The deadlines of a connection come from its first and its last chunk. */
  ghost predicate Timed(cfg: Config, s: Server, fd: nat, first: Option<int>, last: Option<int>) {
    && (fd in s.conns <==> first.Some?) && (fd in s.conns <==> last.Some?)
    && (fd in s.conns ==>
          var conn := s.conns[fd];
          && conn.initialDeadline == first.value + cfg.initialInactivity
          && (conn.IsActive() && !conn.alivePending ==> conn.generalDeadline == last.value + cfg.generalInactivity))
  }

  lemma DataTimed(cfg: Config, s: Server, g: nat, bytes: seq<Byte>, at: int, fd: nat,
                  first: Option<int>, last: Option<int>)
    requires Timed(cfg, s, fd, first, last)
    ensures Timed(cfg, OnData(cfg, s, g, bytes, at), fd,
                  if g == fd && first.None? then Some(at) else first, if g == fd then Some(at) else last)
  {
    hide OnData;
    if g == fd {
      OnDataEffect(cfg, s, g, bytes, at);
      OnDataTouched(cfg, s, g, bytes, at);
    } else {
      ElsewhereKeeps(cfg, s, Data(g, bytes, at), fd);
      assert Apply(cfg, s, Data(g, bytes, at)) == OnData(cfg, s, g, bytes, at);
    }
  }

  lemma TickTimed(cfg: Config, s: Server, order: seq<nat>, at: int, fd: nat, first: Option<int>, last: Option<int>)
    requires Timed(cfg, s, fd, first, last)
    ensures Timed(cfg, Tick(cfg, s, order, at), fd, first, last)
  {
    hide AliveChecks, Closing;
  }

  /** Over every run. */
  lemma {:induction false} TimedInvariant(cfg: Config, ops: seq<Op>, fd: nat)
    ensures Timed(cfg, Run(cfg, INIT, ops), fd, FirstHeard(ops, fd), LastHeard(ops, fd))
    decreases |ops|
  {
    hide OnData, Tick, Timed;
    if ops == [] {
      NobodyTimed(cfg, fd);
    } else {
      var before := ops[..|ops| - 1];
      TimedInvariant(cfg, before, fd);
      var s, first, last := Run(cfg, INIT, before), FirstHeard(before, fd), LastHeard(before, fd);
      match ops[|ops| - 1]
      case Data(g, bytes, at) => DataTimed(cfg, s, g, bytes, at, fd, first, last);
      case Maintenance(order, at) => TickTimed(cfg, s, order, at, fd, first, last);
      case Disconnect(g, at) => EraseTimed(cfg, s, g, at, fd, first, last);
    }
  }

  lemma NobodyTimed(cfg: Config, fd: nat)
    ensures Timed(cfg, INIT, fd, None, None)
  {
  }

  lemma EraseTimed(cfg: Config, s: Server, g: nat, at: int, fd: nat, first: Option<int>, last: Option<int>)
    requires Timed(cfg, s, fd, first, last)
    ensures Timed(cfg, Erase(s, g, at), fd, if g == fd then None else first, if g == fd then None else last)
  {
    hide DeactivateFd;
  }

  lemma {:induction false} ChecksExact(cfg: Config, conns: map<nat, Connection>, order: seq<nat>, now: int, fd: nat)
    ensures Sent(fd, now, ALIVE_CHECK) in AliveChecks(cfg, conns, order, now) <==>
            fd in order && fd in conns && Judge(cfg, conns[fd], now) == CheckAlive
    decreases |order|
  {
    hide Judge, FrameBytes;
    if order != [] {
      ChecksExact(cfg, conns, order[..|order| - 1], now, fd);
      assert order == order[..|order| - 1] + [order[|order| - 1]];
    }
  }

  /** The tick sends the socket an alive check. */
  ghost predicate Checked(s: Server, t: Server, fd: nat) {
    exists i :: |s.log| <= i < |t.log| && IsAliveCheck(t.log[i]) && t.log[i].fd == fd
  }

  lemma TickChecks(cfg: Config, s: Server, order: seq<nat>, now: int, fd: nat)
    ensures Checked(s, Tick(cfg, s, order, now), fd) <==>
            fd in order && fd in s.conns && Judge(cfg, s.conns[fd], now) == CheckAlive
  {
    hide AliveChecks, Closing, Judge, FrameBytes;
    ChecksExact(cfg, s.conns, order, now, fd);
    AliveChecksSent(cfg, s.conns, order, now);
    var t := Tick(cfg, s, order, now);
    var checks, shut := AliveChecks(cfg, s.conns, order, now), Shutdowns(Closing(cfg, s.conns, order, now), now);
    var check := Sent(fd, now, ALIVE_CHECK);
    assert t.log == s.log + (checks + shut);
    if check in checks {
      var i :| 0 <= i < |checks| && checks[i] == check;
      assert t.log[|s.log| + i] == check;
    }
    if i :| |s.log| <= i < |t.log| && IsAliveCheck(t.log[i]) && t.log[i].fd == fd {
      assert t.log[i] == (checks + shut)[i - |s.log|];
      assert i - |s.log| < |checks|;
      assert t.log[i] in checks;
    }
  }

  /** Main result: over every run whose ticks visit every connection, a tick sends a socket an alive check
      exactly when its connection is active, no alive check is open on it, and the last chunk came in at
      least the general inactivity time ago. */
  lemma AliveCheckExact(cfg: Config, ops: seq<Op>, order: seq<nat>, now: int, fd: nat)
    requires TicksVisitAll(cfg, ops) && Enumerates(order, Run(cfg, INIT, ops).conns.Keys)
    ensures var s := Run(cfg, INIT, ops);
      Checked(s, Tick(cfg, s, order, now), fd) <==>
        && fd in s.conns && s.conns[fd].IsActive() && OpenCheck(s.log, fd).None?
        && LastHeard(ops, fd).Some? && now >= LastHeard(ops, fd).value + cfg.generalInactivity
  {
    hide Run, Tick, OpenCheck, LastHeard, FirstHeard, TicksVisitAll, Checked;
    PendingInvariant(cfg, ops, fd);
    TimedInvariant(cfg, ops, fd);
    TickChecks(cfg, Run(cfg, INIT, ops), order, now, fd);
    CheckNotOverdue(cfg, ops, order, now, fd);
  }

  /** A connection with an open check is closed or left alone, never checked again. */
  lemma CheckNotOverdue(cfg: Config, ops: seq<Op>, order: seq<nat>, now: int, fd: nat)
    ensures var s := Run(cfg, INIT, ops);
      fd in s.conns && s.conns[fd].IsActive() ==>
        (Judge(cfg, s.conns[fd], now) == CheckAlive <==>
          !s.conns[fd].alivePending && now >= s.conns[fd].generalDeadline)
  {
    hide Run;
  }

  /** Main result: a socket that was heard from within the general inactivity time gets no alive check. */
  lemma BusyNotChecked(cfg: Config, ops: seq<Op>, order: seq<nat>, now: int, fd: nat)
    requires TicksVisitAll(cfg, ops) && Enumerates(order, Run(cfg, INIT, ops).conns.Keys)
    requires LastHeard(ops, fd).Some? && now < LastHeard(ops, fd).value + cfg.generalInactivity
    ensures !Checked(Run(cfg, INIT, ops), Tick(cfg, Run(cfg, INIT, ops), order, now), fd)
  {
    hide Run, Tick, OpenCheck, LastHeard, TicksVisitAll, Checked;
    AliveCheckExact(cfg, ops, order, now, fd);
  }

  /** Main result: a tick asks for the shutdown of an active connection exactly when its open alive check is
      at least the alive-check time old, and of one that is not active exactly when its first chunk came in
      at least the initial inactivity time ago. */
  lemma ShutdownExact(cfg: Config, ops: seq<Op>, order: seq<nat>, now: int, fd: nat)
    requires TicksVisitAll(cfg, ops) && Enumerates(order, Run(cfg, INIT, ops).conns.Keys)
    requires fd in Run(cfg, INIT, ops).conns
    ensures var s := Run(cfg, INIT, ops);
      FirstHeard(ops, fd).Some? &&
      (ShutBy(Tick(cfg, s, order, now).log, |s.log|, fd, now) <==>
        if s.conns[fd].IsActive() then
          OpenCheck(s.log, fd).Some? && now >= OpenCheck(s.log, fd).value + cfg.aliveCheckTimeout
        else now >= FirstHeard(ops, fd).value + cfg.initialInactivity)
  {
    hide Run, Tick, OpenCheck, LastHeard, FirstHeard, TicksVisitAll;
    TimedInvariant(cfg, ops, fd);
    ShutOnlyUnanswered(cfg, ops, order, now, fd);
  }
}
