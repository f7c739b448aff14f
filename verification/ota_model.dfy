/** The OTA manager as a state machine: the locked API calls and the unlocked steps of its worker thread,
    interleaved in any order. Whether a file or boot operation succeeds is an input of its step. */
module OtaModel {
  import opened Bytes
  import opened SlotManager
  import opened VersionManager

  datatype State =
    | Idle | Checking | Downloading | Verifying | Installing | ReadyToSwitch
    | Rebooting | BootVerify | Success | Failed | Rollback

  datatype Progress = Progress(state: State, percent: nat)

  datatype Job = Job(digest: Text, version: Text)

  /** Where the worker thread stands: what it does next. */
  datatype Phase =
    | Off  // there is no worker, or it has returned
    | Spawning  // start_update has released the lock and not yet created the thread
    | Begin | OpenSource | AnnounceCopy | Copy | AnnounceVerify | Verify | AnnounceInstall | OpenSlot
    | Fill(target: Slot)
    | SetTarget | AnnounceReady | Apply
    | Fail(percent: nat)

  /** The verifier, and whether the worker switches on its own. */
  datatype Config = Config(passes: (seq<Byte>, Text) -> bool, autoApply: bool)

  datatype Ota = Ota(
    progress: Progress, phase: Phase, job: Job, staged: Option<seq<Byte>>,
    slots: Slots, versions: Versions)

  function SetProgress(s: Ota, state: State, percent: nat): Ota {
    s.(progress := Progress(state, percent))
  }

  const SUCCESS_MARK: Text := Ascii("SUCCESS")
  const ROLLBACK_MARK: Text := Ascii("ROLLBACK")

  // The API, each call one locked step with its answer.

  predicate MayStart(state: State) {
    state == Idle || state == Failed || state == Success || state == Rollback
  }

  /** The call would have to join a worker that has not returned. */
  predicate Blocks(s: Ota) {
    MayStart(s.progress.state) && s.phase != Off
  }

  /** A call that blocks takes no step. */
  function StartUpdate(s: Ota, job: Job): (Ota, bool) {
    if !MayStart(s.progress.state) || s.phase != Off then (s, false)
    else (s.(progress := Progress(Idle, 0), phase := Spawning, job := job), true)
  }

  /** The outcomes of the boot operations of one call. */
  datatype BootIo = BootIo(nextSet: bool, saved: bool, rebooted: bool)

  function SwitchAndReboot(s: Ota, io: BootIo): (Ota, bool) {
    if s.progress.state != ReadyToSwitch then (s, false)
    else if !io.nextSet then (SetProgress(s, Failed, s.progress.percent), false)
    else
      var (slots, ok) := ActivateInactive(s.slots, io.saved);
      var t := s.(slots := slots);
      if !ok || !io.rebooted then (SetProgress(t, Failed, s.progress.percent), false)
      else (SetProgress(t, Rebooting, 100), true)
  }

  /** marked: the boot controller could record the result. */
  function ReportBootResult(s: Ota, success: bool, marked: bool, saved: bool): (Ota, bool) {
    if s.progress.state != Rebooting then (s, false)
    else if !marked then (SetProgress(s, Failed, 100), false)
    else
      var from, to := s.versions.current, s.versions.target;
      if success then
        var v := s.versions.(history := s.versions.history + [Record(from, to, SUCCESS_MARK)], current := to);
        (SetProgress(s.(versions := v), Success, 100), true)
      else
        var (slots, ok) := RollbackToLastGood(s.slots, saved);
        var t := s.(slots := slots);
        if !ok then (SetProgress(t, Failed, 100), false)
        else
          var v := s.versions.(history := s.versions.history + [Record(from, to, ROLLBACK_MARK)]);
          (SetProgress(t.(versions := v), Rollback, 100), true)
  }

  function ManualRollback(s: Ota, saved: bool): (Ota, bool) {
    if s.progress.state != ReadyToSwitch && s.progress.state != Rebooting then (s, false)
    else
      var (slots, ok) := RollbackToLastGood(s.slots, saved);
      var t := s.(slots := slots);
      if !ok then (SetProgress(t, Failed, s.progress.percent), false) else (SetProgress(t, Rollback, 100), true)
  }

  // The worker, one step at a time.

  /** What the worker finds: the source image if it can be opened, whether the step's own file
      operations succeed, how the slot write ends, and the boot operations of an automatic switch. */
  datatype WorkIo = WorkIo(source: Option<seq<Byte>>, ok: bool, outcome: WriteOutcome, boot: BootIo)

  function Work(cfg: Config, s: Ota, io: WorkIo): Ota {
    match s.phase
    case Off => s
    case Spawning => s.(phase := Begin)
    case Begin => SetProgress(s, Checking, 1).(phase := OpenSource)
    case OpenSource => s.(phase := if io.source.Some? then AnnounceCopy else Fail(0))
    case AnnounceCopy => SetProgress(s, Downloading, 15).(phase := Copy)
    case Copy =>
      if io.source.Some? && io.ok then s.(staged := io.source, phase := AnnounceVerify)
      else s.(staged := None, phase := Fail(15))
    case AnnounceVerify => SetProgress(s, Verifying, 55).(phase := Verify)
    case Verify =>
      s.(phase := if s.staged.Some? && io.ok && cfg.passes(s.staged.value, s.job.digest)
                  then AnnounceInstall else Fail(55))
    case AnnounceInstall => SetProgress(s, Installing, 75).(phase := OpenSlot)
    case OpenSlot =>
      if !io.ok || s.staged.None? then s.(phase := Fail(75))
      else s.(slots := BeginWrite(s.slots, s.slots.Inactive()), phase := Fill(s.slots.Inactive()))
    case Fill(target) =>
      if s.staged.None? then s.(phase := Fail(75)) else
      s.(slots := EndWrite(s.slots, target, s.staged.value, s.job.version, io.outcome),
         phase := if WriteSucceeds(s.staged.value, io.outcome) then SetTarget else Fail(75))
    case SetTarget => s.(versions := s.versions.(target := s.job.version), phase := AnnounceReady)
    case AnnounceReady => SetProgress(s, ReadyToSwitch, 90).(phase := if cfg.autoApply then Apply else Off)
    case Apply => SwitchAndReboot(s, io.boot).0.(phase := Off)
    case Fail(percent) => SetProgress(s, Failed, percent).(phase := Off)
  }

  // Runs.

  datatype Step =
    | Start(job: Job)
    | Switch(boot: BootIo)
    | Report(success: bool, marked: bool, saved: bool)
    | Undo(saved: bool)
    | Worker(io: WorkIo)

  function Apply1(cfg: Config, s: Ota, step: Step): Ota {
    match step
    case Start(job) => StartUpdate(s, job).0
    case Switch(boot) => SwitchAndReboot(s, boot).0
    case Report(success, marked, saved) => ReportBootResult(s, success, marked, saved).0
    case Undo(saved) => ManualRollback(s, saved).0
    case Worker(io) => Work(cfg, s, io)
  }

  function Run(cfg: Config, s: Ota, steps: seq<Step>): Ota {
    if steps == [] then s else Apply1(cfg, Run(cfg, s, steps[..|steps| - 1]), steps[|steps| - 1])
  }

  /** A manager that has just been constructed. */
  predicate Fresh(s: Ota) {
    s.progress == Progress(Idle, 0) && s.phase == Off && s.slots.lastGood == s.slots.current
  }
}
