/** The inactivity and alive-check timers: what they force, and what they never do. */
module DoipTimers {
  import opened Bytes
  import opened DoipFrame
  import opened DoipStream
  import opened DoipModel
  import opened DoipRoutingTable
  import opened DoipDelivery

  function Max(a: int, b: int): int {
    if a < b then b else a
  }

  function Clock(ops: seq<Op>, start: int): int {
    if ops == [] then start else ops[|ops| - 1].at
  }

  /** When the last maintenance tick came. */
  function LastTick(ops: seq<Op>, start: int): int {
    if ops == [] then start
    else if ops[|ops| - 1].Maintenance? then ops[|ops| - 1].at
    else LastTick(ops[..|ops| - 1], start)
  }

  /** Time never runs back, a tick visits every connection, and at no event has the last tick been
      longer ago than the period. */
  ghost predicate Paced(cfg: Config, ops: seq<Op>, start: int, period: nat) {
    ops == [] ||
    var before, op := ops[..|ops| - 1], ops[|ops| - 1];
    && Paced(cfg, before, start, period)
    && Clock(before, start) <= op.at <= LastTick(before, start) + period
    && (op.Maintenance? ==> Enumerates(op.order, Run(cfg, INIT, before).conns.Keys))
  }

  /** A tick visits every connection, in whatever order. */
  ghost predicate TicksVisitAll(cfg: Config, ops: seq<Op>) {
    ops == [] ||
    var before, op := ops[..|ops| - 1], ops[|ops| - 1];
    TicksVisitAll(cfg, before) && (op.Maintenance? ==> Enumerates(op.order, Run(cfg, INIT, before).conns.Keys))
  }

  /** The server asked for the socket to be shut down, no later than bound, after the first n log entries. */
  ghost predicate ShutBy(log: seq<Event>, n: nat, fd: nat, bound: int) {
    exists i :: n <= i < |log| && log[i].Shutdown? && log[i].fd == fd && log[i].at <= bound
  }

  lemma ShutByStays(log: seq<Event>, longer: seq<Event>, n: nat, fd: nat, bound: int)
    requires ShutBy(log, n, fd, bound) && log <= longer
    ensures ShutBy(longer, n, fd, bound)
  {
    var i :| n <= i < |log| && log[i].Shutdown? && log[i].fd == fd && log[i].at <= bound;
    assert longer[i] == log[i];
  }

  // What one tick does to one connection.

  lemma {:induction false} ClosingExact(cfg: Config, conns: map<nat, Connection>, order: seq<nat>, now: int)
    ensures forall fd :: fd in Closing(cfg, conns, order, now) <==>
                         fd in order && fd in conns && Judge(cfg, conns[fd], now) == Close
  {
    if order != [] {
      var before := order[..|order| - 1];
      ClosingExact(cfg, conns, before, now);
      assert order == before + [order[|order| - 1]];
    }
  }

  lemma TickShuts(cfg: Config, s: Server, order: seq<nat>, now: int, fd: nat)
    ensures var t := Tick(cfg, s, order, now);
      && s.log <= t.log
      && (ShutBy(t.log, |s.log|, fd, now) <==> fd in order && fd in s.conns && Judge(cfg, s.conns[fd], now) == Close)
  {
    ClosingExact(cfg, s.conns, order, now);
    AliveChecksSent(cfg, s.conns, order, now);
    var checks, fds := AliveChecks(cfg, s.conns, order, now), Closing(cfg, s.conns, order, now);
    var t := Tick(cfg, s, order, now);
    hide AliveChecks, Closing, Judge;
    assert t.log == s.log + checks + Shutdowns(fds, now);
    if fd in fds {
      var i :| 0 <= i < |fds| && fds[i] == fd;
      assert t.log[|s.log| + |checks| + i] == Shutdown(fd, now);
    }
    if ShutBy(t.log, |s.log|, fd, now) {
      var i :| |s.log| <= i < |t.log| && t.log[i].Shutdown? && t.log[i].fd == fd && t.log[i].at <= now;
      assert forall j :: 0 <= j < |checks| ==> checks[j] in checks;
      assert i >= |s.log| + |checks|;
      assert t.log[i] == Shutdowns(fds, now)[i - |s.log| - |checks|];
    }
  }

  // Bound for a connection that falls silent.

  predicate Touches(op: Op, fd: nat) {
    !op.Maintenance? && op.fd == fd
  }

  /** When an active connection in this state is shut down at the latest, if it stays silent. */
  function Deadline(cfg: Config, conn: Connection, tick: int, period: nat): int {
    if conn.alivePending then Max(tick, conn.aliveSentAt + cfg.aliveCheckTimeout) + period
    else Max(tick, conn.generalDeadline) + cfg.aliveCheckTimeout + 2 * period
  }

  /** What an event that does not touch socket fd does to it. */
  lemma ElsewhereKeeps(cfg: Config, s: Server, op: Op, fd: nat)
    requires !op.Maintenance? && op.fd != fd
    ensures var t := Apply(cfg, s, op);
      && s.log <= t.log && (fd in t.conns <==> fd in s.conns) && (fd in s.conns ==> t.conns[fd] == s.conns[fd])
  {
    hide OnData;
    match op
    case Data(g, bytes, at) => OnDataEffect(cfg, s, g, bytes, at);
    case Disconnect(g, at) => EraseLog(s, g, at, fd);
    case Maintenance(_, _) =>
  }

  lemma {:induction false} SilentInvariant(cfg: Config, ops: seq<Op>, k: nat, fd: nat,
                                           start: int, period: nat, bound: int)
    requires Paced(cfg, ops, start, period) && k <= |ops|
    requires forall j :: k <= j < |ops| ==> !Touches(ops[j], fd)
    requires var s := Run(cfg, INIT, ops[..k]);
      && fd in s.conns && s.conns[fd].IsActive()
      && Deadline(cfg, s.conns[fd], LastTick(ops[..k], start), period) <= bound
    ensures var s := Run(cfg, INIT, ops);
      || ShutBy(s.log, |Run(cfg, INIT, ops[..k]).log|, fd, bound)
      || (fd in s.conns && s.conns[fd].IsActive() && Deadline(cfg, s.conns[fd], LastTick(ops, start), period) <= bound)
    ensures Run(cfg, INIT, ops[..k]).log <= Run(cfg, INIT, ops).log
    decreases |ops|
  {
    hide Apply;
    if |ops| == k {
      assert ops[..k] == ops;
    } else {
      var before, op := ops[..|ops| - 1], ops[|ops| - 1];
      assert before[..k] == ops[..k];
      SilentInvariant(cfg, before, k, fd, start, period, bound);
      SilentStep(cfg, Run(cfg, INIT, before), op, |Run(cfg, INIT, ops[..k]).log|, fd,
                 LastTick(before, start), period, bound);
    }
  }

  lemma SilentStep(cfg: Config, s: Server, op: Op, n: nat, fd: nat, tick: int, period: nat, bound: int)
    requires !Touches(op, fd) && op.at <= tick + period && n <= |s.log|
    requires op.Maintenance? ==> Enumerates(op.order, s.conns.Keys)
    requires || ShutBy(s.log, n, fd, bound)
      || (fd in s.conns && s.conns[fd].IsActive() && Deadline(cfg, s.conns[fd], tick, period) <= bound)
    ensures var t := Apply(cfg, s, op);
      && s.log <= t.log
      && (|| ShutBy(t.log, n, fd, bound)
          || (fd in t.conns && t.conns[fd].IsActive() &&
              Deadline(cfg, t.conns[fd], if op.Maintenance? then op.at else tick, period) <= bound))
  {
    hide OnData, Erase, AliveChecks, Closing;
    if op.Maintenance? {
      TickShuts(cfg, s, op.order, op.at, fd);
    } else {
      ElsewhereKeeps(cfg, s, op, fd);
    }
    var t := Apply(cfg, s, op);
    if ShutBy(s.log, n, fd, bound) {
      ShutByStays(s.log, t.log, n, fd, bound);
    }
  }

  lemma {:induction false} PacedPrefix(cfg: Config, ops: seq<Op>, start: int, period: nat, k: nat)
    requires Paced(cfg, ops, start, period) && k <= |ops|
    ensures Paced(cfg, ops[..k], start, period)
    ensures Clock(ops, start) <= LastTick(ops, start) + period
    ensures LastTick(ops, start) <= Clock(ops, start)
    ensures Clock(ops[..k], start) <= Clock(ops, start)
    decreases |ops|
  {
    if ops != [] {
      var before := ops[..|ops| - 1];
      if k == |ops| {
        assert ops[..k] == ops;
        PacedPrefix(cfg, before, start, period, 0);
      } else {
        assert before[..k] == ops[..k];
        PacedPrefix(cfg, before, start, period, k);
      }
    }
  }

  /** Main result: a connection that is active when its last chunk arrives is asked to shut down within
      the general inactivity time, the alive-check time and two maintenance periods of that chunk. */
  lemma SilentConnectionIsShut(cfg: Config, ops: seq<Op>, k: nat, fd: nat, start: int, period: nat)
    requires Paced(cfg, ops, start, period)
    requires k < |ops| && ops[k].Data? && ops[k].fd == fd
    requires forall j :: k < j < |ops| ==> !Touches(ops[j], fd)
    requires var s := Run(cfg, INIT, ops[..k + 1]); fd in s.conns && s.conns[fd].IsActive()
    requires Clock(ops, start) > ops[k].at + cfg.generalInactivity + cfg.aliveCheckTimeout + 2 * period
    ensures ShutBy(Run(cfg, INIT, ops).log, |Run(cfg, INIT, ops[..k + 1]).log|, fd,
                   ops[k].at + cfg.generalInactivity + cfg.aliveCheckTimeout + 2 * period)
  {
    hide Paced, OnData, Tick, Erase;
    var bound := ops[k].at + cfg.generalInactivity + cfg.aliveCheckTimeout + 2 * period;
    var first := ops[..k + 1];
    PacedPrefix(cfg, ops, start, period, k + 1);
    PacedPrefix(cfg, first, start, period, 0);
    PendingPast(cfg, first, start, period, fd);
    assert first[..k] == ops[..k];
    OnDataTouched(cfg, Run(cfg, INIT, ops[..k]), fd, ops[k].bytes, ops[k].at);
    SilentInvariant(cfg, ops, k + 1, fd, start, period, bound);
  }

  lemma OnDataTouched(cfg: Config, s: Server, fd: nat, data: seq<Byte>, now: int)
    ensures fd in OnData(cfg, s, fd, data, now).conns
    ensures Touched(cfg, OnData(cfg, s, fd, data, now).conns[fd], now)
  {
    hide Drain;
    DrainKeeps(cfg, Receive(cfg, s, fd, data, now), fd, now);
  }

  // Bound for a connection that never activates.

  lemma {:induction false} IdleInvariant(cfg: Config, ops: seq<Op>, k: nat, fd: nat,
                                         start: int, period: nat, bound: int)
    requires Paced(cfg, ops, start, period)
    requires k < |ops| && ops[k].Data? && ops[k].fd == fd && fd !in Run(cfg, INIT, ops[..k]).conns
    requires forall j :: k < j < |ops| ==> ops[j] != Disconnect(fd, ops[j].at)
    requires forall j :: k < j <= |ops| ==>
      var s := Run(cfg, INIT, ops[..j]); fd in s.conns ==> !s.conns[fd].IsActive()
    requires bound == ops[k].at + cfg.initialInactivity + period
    ensures var s := Run(cfg, INIT, ops);
      || ShutBy(s.log, |Run(cfg, INIT, ops[..k]).log|, fd, bound)
      || (&& fd in s.conns && s.conns[fd].initialDeadline == ops[k].at + cfg.initialInactivity
          && Max(LastTick(ops, start), s.conns[fd].initialDeadline) + period <= bound)
    ensures Run(cfg, INIT, ops[..k]).log <= Run(cfg, INIT, ops).log
    decreases |ops|
  {
    hide OnData, Tick, Erase;
    var before, op := ops[..|ops| - 1], ops[|ops| - 1];
    assert before[..k] == ops[..k] && ops[..|ops|] == ops;
    var s := Run(cfg, INIT, before);
    if |ops| == k + 1 {
      OnDataEffect(cfg, s, fd, op.bytes, op.at);
      PacedPrefix(cfg, before, start, period, 0);
      assert Apply(cfg, s, op) == OnData(cfg, s, fd, op.bytes, op.at);
    } else {
      assert forall j :: k < j <= |before| ==> before[..j] == ops[..j];
      IdleInvariant(cfg, before, k, fd, start, period, bound);
      IdleStep(cfg, s, op, |Run(cfg, INIT, ops[..k]).log|, fd, LastTick(before, start), period,
               ops[k].at + cfg.initialInactivity, bound);
    }
  }

  lemma IdleStep(cfg: Config, s: Server, op: Op, n: nat, fd: nat, tick: int, period: nat, deadline: int, bound: int)
    requires op.at <= tick + period && n <= |s.log| && op != Disconnect(fd, op.at)
    requires op.Maintenance? ==> Enumerates(op.order, s.conns.Keys)
    requires fd in s.conns ==> !s.conns[fd].IsActive()
    requires bound == deadline + period
    requires || ShutBy(s.log, n, fd, bound)
      || (fd in s.conns && s.conns[fd].initialDeadline == deadline && Max(tick, deadline) + period <= bound)
    ensures var t := Apply(cfg, s, op);
      && s.log <= t.log
      && (|| ShutBy(t.log, n, fd, bound)
          || (fd in t.conns && t.conns[fd].initialDeadline == deadline &&
              Max(if op.Maintenance? then op.at else tick, deadline) + period <= bound))
  {
    hide OnData, Erase, AliveChecks, Closing;
    var t := Apply(cfg, s, op);
    if op.Maintenance? {
      TickShuts(cfg, s, op.order, op.at, fd);
    } else if op.fd == fd {
      OnDataEffect(cfg, s, fd, op.bytes, op.at);
    } else {
      ElsewhereKeeps(cfg, s, op, fd);
    }
    if ShutBy(s.log, n, fd, bound) {
      ShutByStays(s.log, t.log, n, fd, bound);
    }
  }

  /** Main result: a connection that never activates routing is asked to shut down within the initial
      inactivity time and one maintenance period of its first chunk, however much it sends. */
  lemma IdleConnectionIsShut(cfg: Config, ops: seq<Op>, k: nat, fd: nat, start: int, period: nat)
    requires Paced(cfg, ops, start, period)
    requires k < |ops| && ops[k].Data? && ops[k].fd == fd && fd !in Run(cfg, INIT, ops[..k]).conns
    requires forall j :: k < j < |ops| ==> ops[j] != Disconnect(fd, ops[j].at)
    requires forall j :: k < j <= |ops| ==>
      var s := Run(cfg, INIT, ops[..j]); fd in s.conns ==> !s.conns[fd].IsActive()
    requires Clock(ops, start) > ops[k].at + cfg.initialInactivity + period
    ensures ShutBy(Run(cfg, INIT, ops).log, |Run(cfg, INIT, ops[..k]).log|, fd,
                   ops[k].at + cfg.initialInactivity + period)
  {
    IdleInvariant(cfg, ops, k, fd, start, period, ops[k].at + cfg.initialInactivity + period);
    PacedPrefix(cfg, ops, start, period, 0);
  }

  // What the alive-check timer remembers.

  /** When the last alive check of a socket was sent, if no alive check request has been received from
      it since and it has not been closed since. */
  function OpenCheck(log: seq<Event>, fd: nat): Option<int> {
    if log == [] then None else
    var before, e := OpenCheck(log[..|log| - 1], fd), log[|log| - 1];
    if e.fd != fd then before
    else if IsAliveCheck(e) then Some(e.at)
    else if e.Closed? || (e.Received? && e.frame.payloadType == ALIVE_CHECK_REQUEST) then None
    else before
  }

  function Pending(s: Server, fd: nat): Option<int> {
    if fd in s.conns && s.conns[fd].alivePending then Some(s.conns[fd].aliveSentAt) else None
  }

  lemma {:induction false} OpenCheckQuiet(log: seq<Event>, es: seq<Event>, fd: nat)
    requires forall e :: e in es ==> e.fd != fd || (!IsAliveCheck(e) && !e.Closed? && !e.Received?)
    ensures OpenCheck(log + es, fd) == OpenCheck(log, fd)
  {
    if es == [] {
      assert log + es == log;
    } else {
      var es' := es[..|es| - 1];
      assert (log + es)[..|log + es| - 1] == log + es';
      assert es[|es| - 1] in es;
      OpenCheckQuiet(log, es', fd);
    }
  }

  lemma HandlePending(cfg: Config, s: Server, fd: nat, f: Frame, now: int)
    requires fd in s.conns
    ensures Pending(Handle(cfg, s, fd, f, now), fd)
         == if f.payloadType == ALIVE_CHECK_REQUEST then None else Pending(s, fd)
  {
    hide Answer, FrameBytes, RoutingVerdict, FromBe16, Be16, Activate;
  }

  lemma {:induction false} DispatchAllClears(cfg: Config, s: Server, fd: nat, fs: seq<Frame>, now: int)
    requires fd in s.conns
    ensures Pending(DispatchAll(cfg, s, fd, fs, now), fd) in {None, Pending(s, fd)}
    decreases |fs|
  {
    if fs != [] {
      hide Handle;
      HandlePending(cfg, Log(s, [Received(fd, now, fs[0])]), fd, fs[0], now);
      hide Dispatch;
      DispatchAllClears(cfg, Dispatch(cfg, s, fd, fs[0], now), fd, fs[1..], now);
    }
  }

  /** A chunk never starts an alive check. */
  lemma OnDataClears(cfg: Config, s: Server, g: nat, data: seq<Byte>, now: int, fd: nat)
    ensures Pending(OnData(cfg, s, g, data, now), fd) in {None, Pending(s, fd)}
  {
    OnDataEffect(cfg, s, g, data, now);
    hide DispatchAll, Parse, Classify;
    var s1 := Receive(cfg, s, g, data, now);
    var parsed := Parse(s1.conns[g].rx);
    DispatchAllClears(cfg, SetRx(s1, g, parsed.rest), g, parsed.frames, now);
    if fd != g {
      assert Pending(OnData(cfg, s, g, data, now), fd) == Pending(s, fd);
    }
  }

  lemma {:induction false} PendingPast(cfg: Config, ops: seq<Op>, start: int, period: nat, fd: nat)
    requires Paced(cfg, ops, start, period)
    ensures var p := Pending(Run(cfg, INIT, ops), fd); p.Some? ==> p.value <= Clock(ops, start)
    decreases |ops|
  {
    if ops != [] {
      hide OnData, AliveChecks, Closing;
      var before, op := ops[..|ops| - 1], ops[|ops| - 1];
      PendingPast(cfg, before, start, period, fd);
      if op.Data? {
        OnDataClears(cfg, Run(cfg, INIT, before), op.fd, op.bytes, op.at, fd);
      }
    }
  }

  lemma DispatchPending(cfg: Config, s: Server, fd: nat, f: Frame, now: int, g: nat)
    requires fd in s.conns && Pending(s, g) == OpenCheck(s.log, g)
    ensures var t := Dispatch(cfg, s, fd, f, now); Pending(t, g) == OpenCheck(t.log, g)
  {
    hide Handle;
    var s' := Log(s, [Received(fd, now, f)]);
    HandleOwnWork(cfg, s', fd, f, now);
    HandlePending(cfg, s', fd, f, now);
    var t := Handle(cfg, s', fd, f, now);
    var es := t.log[|s'.log|..];
    assert t.log == s'.log + es;
    OpenCheckQuiet(s'.log, es, g);
    assert s'.log[..|s'.log| - 1] == s.log;
  }

  lemma {:induction false} DispatchAllPending(cfg: Config, s: Server, fd: nat, fs: seq<Frame>, now: int, g: nat)
    requires fd in s.conns && Pending(s, g) == OpenCheck(s.log, g)
    ensures var t := DispatchAll(cfg, s, fd, fs, now); Pending(t, g) == OpenCheck(t.log, g)
    decreases |fs|
  {
    hide Dispatch, OpenCheck;
    if fs != [] {
      DispatchPending(cfg, s, fd, fs[0], now, g);
      DispatchAllPending(cfg, Dispatch(cfg, s, fd, fs[0], now), fd, fs[1..], now, g);
    }
  }

  lemma OnDataPending(cfg: Config, s: Server, fd: nat, data: seq<Byte>, now: int, g: nat)
    requires Pending(s, g) == OpenCheck(s.log, g)
    ensures var t := OnData(cfg, s, fd, data, now); Pending(t, g) == OpenCheck(t.log, g)
  {
    hide DispatchAll, Parse, Classify, FrameBytes, OpenCheck;
    var s1 := Receive(cfg, s, fd, data, now);
    var parsed := Parse(s1.conns[fd].rx);
    var s2 := SetRx(s1, fd, parsed.rest);
    DispatchAllPending(cfg, s2, fd, parsed.frames, now, g);
    OpenCheckQuiet(DispatchAll(cfg, s2, fd, parsed.frames, now).log, Reject(fd, Classify(parsed.rest), now), g);
  }

  lemma {:induction false} AliveChecksOpen(cfg: Config, log: seq<Event>, conns: map<nat, Connection>,
                                           order: seq<nat>, now: int, g: nat)
    ensures OpenCheck(log + AliveChecks(cfg, conns, order, now), g)
         == if g in order && g in conns && Judge(cfg, conns[g], now) == CheckAlive then Some(now) else OpenCheck(log, g)
  {
    hide Judge;
    if order == [] {
      assert log + [] == log;
    } else {
      var before := order[..|order| - 1];
      AliveChecksOpen(cfg, log, conns, before, now, g);
      assert order == before + [order[|order| - 1]];
      var es, fd := AliveChecks(cfg, conns, before, now), order[|order| - 1];
      var all := AliveChecks(cfg, conns, order, now);
      if fd in conns && Judge(cfg, conns[fd], now) == CheckAlive {
        assert (log + all)[..|log + all| - 1] == log + es;
      } else {
        assert all == es;
      }
    }
  }

  lemma TickPending(cfg: Config, s: Server, order: seq<nat>, now: int, g: nat)
    requires Pending(s, g) == OpenCheck(s.log, g) && Enumerates(order, s.conns.Keys)
    ensures var t := Tick(cfg, s, order, now); Pending(t, g) == OpenCheck(t.log, g)
  {
    hide AliveChecks, Closing, OpenCheck;
    AliveChecksOpen(cfg, s.log, s.conns, order, now, g);
    var checks, shut := AliveChecks(cfg, s.conns, order, now), Shutdowns(Closing(cfg, s.conns, order, now), now);
    OpenCheckQuiet(s.log + checks, shut, g);
    assert s.log + checks + shut == s.log + (checks + shut);
  }

  lemma ErasePending(s: Server, g: nat, now: int, fd: nat)
    requires Pending(s, fd) == OpenCheck(s.log, fd)
    ensures var t := Erase(s, g, now); Pending(t, fd) == OpenCheck(t.log, fd)
  {
    var t := Erase(s, g, now);
    assert t.log[..|t.log| - 1] == s.log;
  }

  /** Over every run, a connection's pending alive check is exactly the open one of the log. */
  lemma {:induction false} PendingInvariant(cfg: Config, ops: seq<Op>, fd: nat)
    requires TicksVisitAll(cfg, ops)
    ensures var s := Run(cfg, INIT, ops); Pending(s, fd) == OpenCheck(s.log, fd)
    decreases |ops|
  {
    if ops != [] {
      hide OnData, Tick, Erase, OpenCheck, Pending;
      var before, op := ops[..|ops| - 1], ops[|ops| - 1];
      PendingInvariant(cfg, before, fd);
      var s := Run(cfg, INIT, before);
      match op
      case Data(g, bytes, at) => OnDataPending(cfg, s, g, bytes, at, fd);
      case Maintenance(order, at) => TickPending(cfg, s, order, at, fd);
      case Disconnect(g, at) => ErasePending(s, g, at, fd);
    }
  }

  /** Main result: maintenance shuts an active connection exactly when an alive check was sent to it at
      least the alive-check time ago and nothing has answered it since, and a connection that is not
      active exactly when its initial inactivity time is over. */
  lemma ShutOnlyUnanswered(cfg: Config, ops: seq<Op>, order: seq<nat>, now: int, fd: nat)
    requires TicksVisitAll(cfg, ops)
    requires Enumerates(order, Run(cfg, INIT, ops).conns.Keys) && fd in Run(cfg, INIT, ops).conns
    ensures var s := Run(cfg, INIT, ops);
      ShutBy(Tick(cfg, s, order, now).log, |s.log|, fd, now) <==>
        if s.conns[fd].IsActive() then
          OpenCheck(s.log, fd).Some? && OpenCheck(s.log, fd).value + cfg.aliveCheckTimeout <= now
        else now >= s.conns[fd].initialDeadline
  {
    PendingInvariant(cfg, ops, fd);
    TickShuts(cfg, Run(cfg, INIT, ops), order, now, fd);
    hide Tick, OpenCheck, Run;
  }
}
