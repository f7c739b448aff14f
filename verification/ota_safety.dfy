/** What holds in every run of the OTA manager, whatever the interleaving of the API with the worker. */
module OtaSafety {
  import opened Bytes
  import opened SlotManager
  import opened VersionManager
  import opened OtaModel

  // The image in every state.

  /** The slot holds exactly the staged bytes, which passed verification, under the job's version. */
  ghost predicate Holds(cfg: Config, s: Ota, slot: Slot) {
    && s.staged.Some? && cfg.passes(s.staged.value, s.job.digest)
    && s.slots.Of(slot) == Content(s.staged, Some(s.job.version))
  }

  /** The states the progress can be in while the worker stands at a phase. */
  predicate StateAt(phase: Phase, state: State) {
    match phase
    case Off => state !in {Checking, Downloading, Verifying, Installing, BootVerify}
    case Spawning => state == Idle
    case Begin => state == Idle
    case OpenSource => state == Checking
    case AnnounceCopy => state == Checking
    case Copy => state == Downloading
    case AnnounceVerify => state == Downloading
    case Verify => state == Verifying
    case AnnounceInstall => state == Verifying
    case OpenSlot => state == Installing
    case Fill(_) => state == Installing
    case SetTarget => state == Installing
    case AnnounceReady => state == Installing
    case Apply => state in {ReadyToSwitch, Rebooting, Success, Failed, Rollback}
    case Fail(_) => state == Checking || state == Downloading || state == Verifying || state == Installing
  }

  ghost predicate Safe(cfg: Config, s: Ota) {
    var current, state := s.slots.current, s.progress.state;
    && StateAt(s.phase, state)
    && (s.phase in {AnnounceInstall, OpenSlot, SetTarget, AnnounceReady} || s.phase.Fill? ==>
          s.staged.Some? && cfg.passes(s.staged.value, s.job.digest))
    && (s.phase.Fill? ==> s.phase.target == Other(current))
    && (s.phase == SetTarget || s.phase == AnnounceReady || state == ReadyToSwitch ==> Holds(cfg, s, Other(current)))
    && (s.phase == AnnounceReady || state == ReadyToSwitch || state == Rebooting ==> s.versions.target == s.job.version)
    && (state == Rebooting || state == Success ==> Holds(cfg, s, current) && s.slots.lastGood == Other(current))
    && (state == Success ==> s.versions.current == s.job.version)
  }

  lemma WorkSafe(cfg: Config, s: Ota, io: WorkIo)
    requires Safe(cfg, s) && s.phase != Apply
    ensures Safe(cfg, Work(cfg, s, io))
  {
  }

  lemma StepSafe(cfg: Config, s: Ota, step: Step)
    requires Safe(cfg, s)
    ensures Safe(cfg, Apply1(cfg, s, step))
  {
    if step.Worker? && s.phase != Apply {
      WorkSafe(cfg, s, step.io);
      hide Work;
    }
  }

  /** Main result: in every run, a slot that is ready to be switched to holds exactly the verified bytes
      under the target version, and after the switch, until the update ends in success, the current slot
      holds them; on success the recorded version is that slot's. */
  lemma {:induction false} VerifiedImage(cfg: Config, start: Ota, steps: seq<Step>)
    requires Fresh(start)
    ensures var s := Run(cfg, start, steps);
      && Safe(cfg, s)
      && (s.progress.state == ReadyToSwitch ==> Holds(cfg, s, s.slots.Inactive()) && s.versions.target == s.job.version)
      && (s.progress.state == Rebooting ==> Holds(cfg, s, s.slots.current))
      && (s.progress.state == Success ==>
            Holds(cfg, s, s.slots.current) && s.slots.Of(s.slots.current).version == Some(s.versions.current))
    decreases |steps|
  {
    hide Apply1;
    if steps != [] {
      VerifiedImage(cfg, start, steps[..|steps| - 1]);
      StepSafe(cfg, Run(cfg, start, steps[..|steps| - 1]), steps[|steps| - 1]);
    }
  }

  /** Main result: no step of any run writes into the slot that is current when it is taken. */
  lemma CurrentSlotUnwritten(cfg: Config, start: Ota, steps: seq<Step>, step: Step)
    requires Fresh(start)
    ensures var s := Run(cfg, start, steps);
      Apply1(cfg, s, step).slots.Of(s.slots.current) == s.slots.Of(s.slots.current)
  {
    VerifiedImage(cfg, start, steps);
    hide Run, Holds;
  }

  // One update, from the start call on.

  predicate Installs(phase: Phase) {
    phase != Off && phase != Apply
  }

  /** What an update that began in state base keeps: the slot that was current holds what it held; until
      the switch it stays current, during the reboot it is the one to go back to; and the installed
      version moves only on success. */
  ghost predicate Since(base: Ota, s: Ota) {
    var home := base.slots.current;
    && s.slots.Of(home) == base.slots.Of(home)
    && (Installs(s.phase) || s.progress.state == ReadyToSwitch ==>
          s.slots.current == home && s.slots.lastGood == base.slots.lastGood)
    && (s.progress.state == Rebooting ==> s.slots.current == Other(home) && s.slots.lastGood == home)
    && (s.progress.state != Success ==> s.versions.current == base.versions.current)
  }

  /** No further update is started along the way; refused start calls may come. */
  ghost predicate NoNewUpdate(cfg: Config, s: Ota, steps: seq<Step>) {
    steps == [] ||
    var before, step := steps[..|steps| - 1], steps[|steps| - 1];
    NoNewUpdate(cfg, s, before) && (step.Start? ==> !StartUpdate(Run(cfg, s, before), step.job).1)
  }

  lemma StepSince(cfg: Config, base: Ota, s: Ota, step: Step)
    requires Safe(cfg, s) && Since(base, s)
    requires step.Start? ==> !StartUpdate(s, step.job).1
    ensures Since(base, Apply1(cfg, s, step))
  {
    hide Holds;
  }

  lemma {:induction false} UpdateInvariant(cfg: Config, base: Ota, job: Job, steps: seq<Step>)
    requires Safe(cfg, base) && StartUpdate(base, job).1
    requires NoNewUpdate(cfg, StartUpdate(base, job).0, steps)
    ensures Safe(cfg, Run(cfg, StartUpdate(base, job).0, steps))
    ensures Since(base, Run(cfg, StartUpdate(base, job).0, steps))
    decreases |steps|
  {
    hide Safe, Apply1;
    var started := StartUpdate(base, job).0;
    if steps == [] {
      StartSafe(cfg, base, job);
    } else {
      UpdateInvariant(cfg, base, job, steps[..|steps| - 1]);
      var s := Run(cfg, started, steps[..|steps| - 1]);
      StepSafe(cfg, s, steps[|steps| - 1]);
      StepSince(cfg, base, s, steps[|steps| - 1]);
    }
  }

  lemma StartSafe(cfg: Config, base: Ota, job: Job)
    requires Safe(cfg, base) && StartUpdate(base, job).1
    ensures Safe(cfg, StartUpdate(base, job).0) && Since(base, StartUpdate(base, job).0)
  {
    hide Holds;
  }

  /** A call that takes the board back to the last good slot, and its answer. */
  function GoBack(s: Ota, step: Step): (Ota, bool) {
    match step
    case Report(false, marked, saved) => ReportBootResult(s, false, marked, saved)
    case Undo(saved) => ManualRollback(s, saved)
    case _ => (s, false)
  }

  /** Main result: while an update waits for its reboot, a failed boot report or a manual rollback that
      succeeds makes current the slot that was current when the update began, with the image and version
      it had then, and leaves the installed version as it was. */
  lemma RollbackFromRebooting(cfg: Config, base: Ota, job: Job, steps: seq<Step>, step: Step)
    requires Safe(cfg, base) && StartUpdate(base, job).1
    requires NoNewUpdate(cfg, StartUpdate(base, job).0, steps)
    requires var s := Run(cfg, StartUpdate(base, job).0, steps);
      s.progress.state == Rebooting && GoBack(s, step).1
    ensures var t := GoBack(Run(cfg, StartUpdate(base, job).0, steps), step).0;
      && t.progress.state == Rollback
      && t.slots.current == base.slots.current
      && t.slots.Of(t.slots.current) == base.slots.Of(base.slots.current)
      && t.versions.current == base.versions.current
  {
    UpdateInvariant(cfg, base, job, steps);
    hide Run, NoNewUpdate, Safe, StartUpdate;
  }

  /** A manual rollback before the switch keeps the running slot exactly when the last good slot was the
      current one as the update began. Otherwise it makes the slot just written current, never booted. */
  lemma RollbackFromReady(cfg: Config, base: Ota, job: Job, steps: seq<Step>, saved: bool)
    requires Safe(cfg, base) && StartUpdate(base, job).1
    requires NoNewUpdate(cfg, StartUpdate(base, job).0, steps)
    requires Run(cfg, StartUpdate(base, job).0, steps).progress.state == ReadyToSwitch
    ensures var s := Run(cfg, StartUpdate(base, job).0, steps);
      var t := ManualRollback(s, saved).0;
      && (t.slots.current == base.slots.current <==> base.slots.lastGood == base.slots.current)
      && (base.slots.lastGood != base.slots.current ==> Holds(cfg, s, t.slots.current))
  {
    UpdateInvariant(cfg, base, job, steps);
    hide Run, NoNewUpdate, StartUpdate;
  }

  /** After a successful update the last good slot is not the current one, so the next update is one
      whose rollback before the switch goes wrong. */
  lemma SuccessLeavesLastGoodBehind(cfg: Config, start: Ota, steps: seq<Step>)
    requires Fresh(start) && Run(cfg, start, steps).progress.state == Success
    ensures var s := Run(cfg, start, steps); s.slots.lastGood != s.slots.current
  {
    VerifiedImage(cfg, start, steps);
    hide Run;
  }

  // An undisturbed update.

  /** n worker steps in a row that all find the same. */
  function WorkOn(cfg: Config, s: Ota, io: WorkIo, n: nat): Ota
    decreases n
  {
    if n == 0 then s else WorkOn(cfg, Work(cfg, s, io), io, n - 1)
  }

  lemma RunAppend(cfg: Config, s: Ota, a: seq<Step>, b: seq<Step>)
    ensures Run(cfg, s, a + b) == Run(cfg, Run(cfg, s, a), b)
    decreases |b|
  {
    hide Apply1;
    if b == [] {
      assert a + b == a;
    } else {
      assert (a + b)[..|a + b| - 1] == a + b[..|b| - 1];
      RunAppend(cfg, s, a, b[..|b| - 1]);
    }
  }

  lemma RunTwo(cfg: Config, s: Ota, a: Step, b: Step)
    ensures Run(cfg, s, [a, b]) == Apply1(cfg, Apply1(cfg, s, a), b)
  {
    hide Apply1;
    assert [a, b][..1] == [a] && [a][..0] == [];
    assert Run(cfg, s, [a]) == Apply1(cfg, s, a);
  }

  lemma RunWorkers(cfg: Config, s: Ota, io: WorkIo, n: nat)
    ensures Run(cfg, s, seq(n, _ => Worker(io))) == WorkOn(cfg, s, io, n)
    decreases n
  {
    hide Work;
    if n > 0 {
      var all, rest := seq(n, _ => Worker(io)), seq(n - 1, _ => Worker(io));
      assert all == [Worker(io)] + rest;
      RunAppend(cfg, s, [Worker(io)], rest);
      RunWorkers(cfg, Work(cfg, s, io), io, n - 1);
      assert [Worker(io)][..0] == [];
    }
  }

  function GoodIo(image: seq<Byte>): WorkIo {
    WorkIo(Some(image), true, Written, BootIo(true, true, true))
  }

  lemma {:induction false} WorkOnAdd(cfg: Config, s: Ota, io: WorkIo, m: nat, n: nat)
    ensures WorkOn(cfg, s, io, m + n) == WorkOn(cfg, WorkOn(cfg, s, io, m), io, n)
    decreases m
  {
    hide Work;
    if m > 0 {
      WorkOnAdd(cfg, Work(cfg, s, io), io, m - 1, n);
    }
  }

  lemma NextWork(cfg: Config, s: Ota, io: WorkIo, n: nat)
    requires n > 0
    ensures WorkOn(cfg, s, io, n) == WorkOn(cfg, Work(cfg, s, io), io, n - 1)
  {
  }

  lemma NoWork(cfg: Config, s: Ota, io: WorkIo)
    ensures WorkOn(cfg, s, io, 0) == s
  {
  }

  /** The worker's first part: up to a verified staging file. */
  lemma VerifiedInSeven(cfg: Config, s: Ota, image: seq<Byte>)
    requires s.phase == Spawning && cfg.passes(image, s.job.digest)
    ensures WorkOn(cfg, s, GoodIo(image), 7)
      == s.(progress := Progress(Verifying, 55), staged := Some(image), phase := AnnounceInstall)
  {
    hide WorkOn;
    var io := GoodIo(image);
    var t := s;
    for k := 0 to 7
      invariant WorkOn(cfg, s, io, 7) == WorkOn(cfg, t, io, 7 - k)
      invariant t.job == s.job && t.slots == s.slots && t.versions == s.versions
      invariant t.phase == [Spawning, Begin, OpenSource, AnnounceCopy, Copy, AnnounceVerify, Verify, AnnounceInstall][k]
      invariant k >= 5 ==> t.staged == Some(image)
      invariant k == 7 ==> t.progress == Progress(Verifying, 55)
      invariant k == 6 ==> t.progress == Progress(Verifying, 55)
    {
      NextWork(cfg, t, io, 7 - k);
      t := Work(cfg, t, io);
    }
    NoWork(cfg, t, io);
  }

  /** Its second part: from there to a filled slot. */
  lemma ReadyInFive(cfg: Config, s: Ota, image: seq<Byte>)
    requires s.phase == AnnounceInstall && s.staged == Some(image) && image != []
    ensures WorkOn(cfg, s, GoodIo(image), 5)
      == s.(progress := Progress(ReadyToSwitch, 90), phase := if cfg.autoApply then Apply else Off,
            slots := s.slots.With(s.slots.Inactive(), Content(Some(image), Some(s.job.version))),
            versions := s.versions.(target := s.job.version))
  {
    hide WorkOn;
    var io := GoodIo(image);
    var s1 := Work(cfg, s, io);
    var s2 := Work(cfg, s1, io);
    var s3 := Work(cfg, s2, io);
    var s4 := Work(cfg, s3, io);
    var s5 := Work(cfg, s4, io);
    NextWork(cfg, s, io, 5);
    NextWork(cfg, s1, io, 4);
    NextWork(cfg, s2, io, 3);
    NextWork(cfg, s3, io, 2);
    NextWork(cfg, s4, io, 1);
    NoWork(cfg, s5, io);
  }

  /** When nothing fails, twelve worker steps take a started update to the point where the inactive slot
      holds the image; nothing else has changed, and only an automatic switch is left to do. */
  lemma ReadyInTwelve(cfg: Config, s: Ota, job: Job, image: seq<Byte>)
    requires StartUpdate(s, job).1 && image != [] && cfg.passes(image, job.digest)
    ensures WorkOn(cfg, StartUpdate(s, job).0, GoodIo(image), 12) == Ota(
      Progress(ReadyToSwitch, 90), if cfg.autoApply then Apply else Off, job, Some(image),
      s.slots.With(s.slots.Inactive(), Content(Some(image), Some(job.version))),
      s.versions.(target := job.version))
  {
    hide WorkOn, Work;
    var t := StartUpdate(s, job).0;
    WorkOnAdd(cfg, t, GoodIo(image), 7, 5);
    VerifiedInSeven(cfg, t, image);
    ReadyInFive(cfg, WorkOn(cfg, t, GoodIo(image), 7), image);
  }

  /** Main result: when nothing fails, the worker ends with the image and version in what was the inactive
      slot. With automatic switching that slot is current, the old one is the one to go back to, and the
      board is rebooting; otherwise the switch waits to be asked for. Nothing else has changed. */
  lemma UpdateCompletes(cfg: Config, s: Ota, job: Job, image: seq<Byte>)
    requires StartUpdate(s, job).1 && image != [] && cfg.passes(image, job.digest)
    ensures var filled := s.slots.With(s.slots.Inactive(), Content(Some(image), Some(job.version)));
      WorkOn(cfg, StartUpdate(s, job).0, GoodIo(image), 13) == Ota(
        if cfg.autoApply then Progress(Rebooting, 100) else Progress(ReadyToSwitch, 90),
        Off, job, Some(image),
        if cfg.autoApply then filled.(current := Other(s.slots.current), lastGood := s.slots.current) else filled,
        s.versions.(target := job.version))
  {
    hide WorkOn, StartUpdate;
    var t, io := StartUpdate(s, job).0, GoodIo(image);
    WorkOnAdd(cfg, t, io, 12, 1);
    ReadyInTwelve(cfg, s, job, image);
    var ready := WorkOn(cfg, t, io, 12);
    NextWork(cfg, ready, io, 1);
    NoWork(cfg, Work(cfg, ready, io), io);
  }

  /** Such runs exist, with automatic switching and without: after one successful update, the second one's
      rollback before the switch makes the unbooted slot current. */
  lemma RollbackFromReadyGoesWrong(cfg: Config, start: Ota, job: Job, image: seq<Byte>) returns (steps: seq<Step>)
    requires Fresh(start) && image != [] && cfg.passes(image, job.digest)
    ensures var s := Run(cfg, start, steps);
      s.progress.state == ReadyToSwitch && ManualRollback(s, true).1 &&
      ManualRollback(s, true).0.slots.current != s.slots.current
  {
    var io := GoodIo(image);
    var work := seq(12, _ => Worker(io));
    var first := [Start(job)] + work;
    RunUpdate(cfg, start, job, image);
    var booted := [if cfg.autoApply then Worker(io) else Switch(io.boot), Report(true, true, true)];
    steps := first + booted + first;
    RunAppend(cfg, start, first, booted);
    RunAppend(cfg, start, first + booted, first);
    var ready := Run(cfg, start, first);
    var done := Run(cfg, start, first + booted);
    RunTwo(cfg, ready, booted[0], booted[1]);
    hide Run;
    RunUpdate(cfg, done, job, image);
  }

  lemma RunUpdate(cfg: Config, s: Ota, job: Job, image: seq<Byte>)
    requires StartUpdate(s, job).1 && image != [] && cfg.passes(image, job.digest)
    ensures Run(cfg, s, [Start(job)] + seq(12, _ => Worker(GoodIo(image)))) == Ota(
      Progress(ReadyToSwitch, 90), if cfg.autoApply then Apply else Off, job, Some(image),
      s.slots.With(s.slots.Inactive(), Content(Some(image), Some(job.version))),
      s.versions.(target := job.version))
  {
    RunAppend(cfg, s, [Start(job)], seq(12, _ => Worker(GoodIo(image))));
    assert [Start(job)][..0] == [];
    assert Run(cfg, s, [Start(job)]) == StartUpdate(s, job).0;
    RunWorkers(cfg, StartUpdate(s, job).0, GoodIo(image), 12);
    hide Run, StartUpdate, WorkOn;
    ReadyInTwelve(cfg, s, job, image);
  }

  // A start that blocks.

  /** Where a start call would join a worker that has not returned, it blocks, holding the lock: in a safe
      state that is before the worker's first progress report or before its automatic switch, and for both
      the worker needs that lock. */
  lemma BlockedExactly(cfg: Config, s: Ota)
    requires Safe(cfg, s)
    ensures Blocks(s) <==>
      || s.phase == Spawning || s.phase == Begin
      || (s.phase == Apply && s.progress.state in {Success, Failed, Rollback})
    ensures !Blocks(s) && s.phase != Off ==> forall job :: StartUpdate(s, job) == (s, false)
  {
    hide Holds;
  }

  // The version ledger.

  /** The version the successful updates of a history lead to. */
  function Replay(history: seq<Record>, initial: Text): Text {
    if history == [] then initial
    else if history[|history| - 1].result == SUCCESS_MARK then history[|history| - 1].to
    else Replay(history[..|history| - 1], initial)
  }

  /** Every record starts from the version its predecessors lead to, and all of them lead to the
      installed version. */
  ghost predicate Ledger(v: Versions, initial: Text) {
    && (forall i :: 0 <= i < |v.history| ==> v.history[i].from == Replay(v.history[..i], initial))
    && Replay(v.history, initial) == v.current
  }

  lemma MarksDiffer()
    ensures SUCCESS_MARK != ROLLBACK_MARK
  {
    assert |SUCCESS_MARK| == 7 && |ROLLBACK_MARK| == 8;
  }

  lemma RecordKeepsLedger(v: Versions, initial: Text, to: Text, result: Text)
    requires Ledger(v, initial)
    ensures Ledger(Versions(if result == SUCCESS_MARK then to else v.current, v.target,
                            v.history + [Record(v.current, to, result)]), initial)
  {
    var h := v.history + [Record(v.current, to, result)];
    assert h[..|v.history|] == v.history;
    forall i | 0 <= i < |h| ensures h[i].from == Replay(h[..i], initial) {
      if i < |v.history| { assert h[..i] == v.history[..i]; }
    }
  }

  /** Only a boot report touches the history or the installed version. */
  lemma OtherStepsKeepLedger(cfg: Config, s: Ota, step: Step)
    requires !step.Report?
    ensures Apply1(cfg, s, step).versions == s.versions.(target := Apply1(cfg, s, step).versions.target)
  {
  }

  lemma StepLedger(cfg: Config, s: Ota, step: Step, initial: Text)
    requires Ledger(s.versions, initial)
    ensures Ledger(Apply1(cfg, s, step).versions, initial)
    ensures s.versions.history <= Apply1(cfg, s, step).versions.history
  {
    hide Replay, Work;
    if step.Report? {
      MarksDiffer();
      RecordKeepsLedger(s.versions, initial, s.versions.target, if step.success then SUCCESS_MARK else ROLLBACK_MARK);
    } else {
      OtherStepsKeepLedger(cfg, s, step);
      hide Apply1;
    }
  }

  /** Main result: in every run the history only grows, each record starts from the version its
      predecessors lead to, and replaying the whole history gives the installed version. */
  lemma {:induction false} VersionLedger(cfg: Config, start: Ota, steps: seq<Step>, initial: Text)
    requires Ledger(start.versions, initial)
    ensures var s := Run(cfg, start, steps);
      Ledger(s.versions, initial) && start.versions.history <= s.versions.history
    decreases |steps|
  {
    hide Apply1, Ledger;
    if steps != [] {
      VersionLedger(cfg, start, steps[..|steps| - 1], initial);
      StepLedger(cfg, Run(cfg, start, steps[..|steps| - 1]), steps[|steps| - 1], initial);
    }
  }
}
