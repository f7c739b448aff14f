/** How an update ends: what each answer of the manager means for the slots, the versions and the history,
    in every run. */
module OtaOutcomes {
  import opened Bytes
  import opened SlotManager
  import opened VersionManager
  import opened OtaModel
  import opened OtaSafety

  // What every run keeps.

  /** The percentage shown goes with the state; a failure shows how far the update had come. */
  predicate PercentFits(p: Progress) {
    match p.state
    case Idle => p.percent == 0
    case Checking => p.percent == 1
    case Downloading => p.percent == 15
    case Verifying => p.percent == 55
    case Installing => p.percent == 75
    case ReadyToSwitch => p.percent == 90
    case Rebooting => p.percent == 100
    case Success => p.percent == 100
    case Rollback => p.percent == 100
    case Failed => p.percent in {0, 15, 55, 75, 90, 100}
    case BootVerify => false
  }

  /** A worker about to give up shows the percentage of the state it is in, or 0 if there was no source. */
  predicate FailureFits(s: Ota) {
    s.phase.Fail? ==> s.phase.percent == match s.progress.state
      case Checking => 0
      case Downloading => 15
      case Verifying => 55
      case _ => 75
  }

  predicate Shown(s: Ota) {
    PercentFits(s.progress) && FailureFits(s)
  }

  lemma StepShown(cfg: Config, s: Ota, step: Step)
    requires Safe(cfg, s) && Shown(s)
    ensures Shown(Apply1(cfg, s, step))
  {
    hide Holds;
  }

  /** In every run the percentage goes with the state. */
  lemma {:induction false} PercentInvariant(cfg: Config, start: Ota, steps: seq<Step>)
    requires Fresh(start)
    ensures Shown(Run(cfg, start, steps))
    decreases |steps|
  {
    hide Apply1, Shown;
    if steps == [] {
      FreshShown(start);
    } else {
      PercentInvariant(cfg, start, steps[..|steps| - 1]);
      VerifiedImage(cfg, start, steps[..|steps| - 1]);
      StepShown(cfg, Run(cfg, start, steps[..|steps| - 1]), steps[|steps| - 1]);
    }
  }

  lemma FreshShown(start: Ota)
    requires Fresh(start)
    ensures Shown(start)
  {
  }

  /** The one record an update leaves: none while it is under way and none if it fails, or is taken back by
      hand; one that names the version before and the version of the job if a boot result ended it. */
  ghost predicate Recorded(base: Ota, job: Job, s: Ota) {
    var before, from := base.versions.history, base.versions.current;
    && s.job == job
    && (s.progress.state == Success ==> s.versions.history == before + [Record(from, job.version, Ascii("SUCCESS"))])
    && (s.progress.state == Rollback ==>
          || s.versions.history == before
          || s.versions.history == before + [Record(from, job.version, Ascii("ROLLBACK"))])
    && (s.progress.state != Success && s.progress.state != Rollback ==> s.versions.history == before)
  }

  lemma StepRecorded(cfg: Config, base: Ota, job: Job, s: Ota, step: Step)
    requires Safe(cfg, s) && Since(base, s) && Recorded(base, job, s)
    requires step.Start? ==> !StartUpdate(s, step.job).1
    ensures Recorded(base, job, Apply1(cfg, s, step))
  {
    hide Holds;
  }

  lemma {:induction false} RecordInvariant(cfg: Config, base: Ota, job: Job, steps: seq<Step>)
    requires Safe(cfg, base) && StartUpdate(base, job).1
    requires NoNewUpdate(cfg, StartUpdate(base, job).0, steps)
    ensures Recorded(base, job, Run(cfg, StartUpdate(base, job).0, steps))
    decreases |steps|
  {
    hide Safe, Apply1, Since;
    if steps != [] {
      hide StartUpdate, Recorded;
      var before := steps[..|steps| - 1];
      RecordInvariant(cfg, base, job, before);
      UpdateInvariant(cfg, base, job, before);
      var s := Run(cfg, StartUpdate(base, job).0, before);
      StepRecorded(cfg, base, job, s, steps[|steps| - 1]);
    }
  }

  // The answers.

  /** Main result: in every run of an update that has come to its reboot, a report of a good boot that can
      be marked is answered with true and completes the update. The slots stay, with the new image running;
      the job's version becomes the installed one; and the one record says so. */
  lemma BootSucceeds(cfg: Config, base: Ota, job: Job, steps: seq<Step>, saved: bool)
    requires Safe(cfg, base) && StartUpdate(base, job).1
    requires NoNewUpdate(cfg, StartUpdate(base, job).0, steps)
    requires Run(cfg, StartUpdate(base, job).0, steps).progress.state == Rebooting
    ensures var s := Run(cfg, StartUpdate(base, job).0, steps);
      var (t, ok) := ReportBootResult(s, true, true, saved);
      && ok && t.progress == Progress(Success, 100)
      && t.slots == s.slots && t.slots.current != base.slots.current
      && t.slots.Of(t.slots.current).version == Some(job.version)
      && t.versions == Versions(job.version, job.version,
           base.versions.history + [Record(base.versions.current, job.version, Ascii("SUCCESS"))])
  {
    UpdateInvariant(cfg, base, job, steps);
    RecordInvariant(cfg, base, job, steps);
    hide Run, NoNewUpdate, StartUpdate;
  }

  /** Main result: a report of a failed boot that can be marked takes the board back to the slot it ran
      from. It is answered with true, and recorded, exactly when the slot file could be saved; the installed
      version never moves. */
  lemma BootFails(cfg: Config, base: Ota, job: Job, steps: seq<Step>, saved: bool)
    requires Safe(cfg, base) && StartUpdate(base, job).1
    requires NoNewUpdate(cfg, StartUpdate(base, job).0, steps)
    requires Run(cfg, StartUpdate(base, job).0, steps).progress.state == Rebooting
    ensures var s := Run(cfg, StartUpdate(base, job).0, steps);
      var (t, ok) := ReportBootResult(s, false, true, saved);
      && ok == saved && t.progress == Progress(if saved then Rollback else Failed, 100)
      && t.slots == s.slots.(current := base.slots.current)
      && t.versions == Versions(base.versions.current, job.version,
           if saved then base.versions.history + [Record(base.versions.current, job.version, Ascii("ROLLBACK"))]
           else base.versions.history)
  {
    UpdateInvariant(cfg, base, job, steps);
    RecordInvariant(cfg, base, job, steps);
    hide Run, NoNewUpdate, StartUpdate;
  }

  /** A boot report is answered with true in no other case; one that cannot be marked fails the update and
      leaves slots and versions alone, and one nobody waits for changes nothing. */
  lemma ReportAnswers(s: Ota, success: bool, marked: bool, saved: bool)
    ensures var (t, ok) := ReportBootResult(s, success, marked, saved);
      && (ok <==> s.progress.state == Rebooting && marked && (success || saved))
      && (s.progress.state != Rebooting ==> t == s)
      && (s.progress.state == Rebooting && !marked ==> t == s.(progress := Progress(Failed, 100)))
  {
  }

  /** The switch, in every run: it is made exactly when it is waited for and no boot operation fails, and
      then the two slots change places. What a failed one leaves depends on how far it came: before the slots
      are touched they stay, after that they have changed places and stay so. */
  lemma SwitchAnswers(cfg: Config, start: Ota, steps: seq<Step>, io: BootIo)
    requires Fresh(start)
    ensures var s := Run(cfg, start, steps);
      var (t, ok) := SwitchAndReboot(s, io);
      var swapped := s.slots.(current := Other(s.slots.current), lastGood := s.slots.current);
      && (ok <==> s.progress.state == ReadyToSwitch && io.nextSet && io.saved && io.rebooted)
      && (ok ==> t == s.(progress := Progress(Rebooting, 100), slots := swapped))
      && (s.progress.state == ReadyToSwitch && !ok ==>
            t == s.(progress := Progress(Failed, 90), slots := if io.nextSet then swapped else s.slots))
      && (s.progress.state != ReadyToSwitch ==> t == s)
  {
    VerifiedImage(cfg, start, steps);
    PercentInvariant(cfg, start, steps);
    hide Run, Fresh;
  }

  /** The manual rollback, in every run. */
  lemma RollbackAnswers(cfg: Config, start: Ota, steps: seq<Step>, saved: bool)
    requires Fresh(start)
    ensures var s := Run(cfg, start, steps);
      var (t, ok) := ManualRollback(s, saved);
      var back := s.slots.(current := s.slots.lastGood);
      && (ok <==> s.progress.state in {ReadyToSwitch, Rebooting} && saved)
      && (ok ==> t == s.(progress := Progress(Rollback, 100), slots := back))
      && (s.progress.state == ReadyToSwitch && !ok ==> t == s.(progress := Progress(Failed, 90), slots := back))
      && (s.progress.state == Rebooting && !ok ==> t == s.(progress := Progress(Failed, 100), slots := back))
      && (s.progress.state !in {ReadyToSwitch, Rebooting} ==> t == s)
  {
    PercentInvariant(cfg, start, steps);
    hide Run, Fresh;
  }

  /** A slot without an image or without a version never becomes current. */
  lemma OnlyFilledSlots(s: Slots, saved: bool)
    ensures var (t, ok) := ActivateInactive(s, saved);
      && (ok <==> s.Of(Other(s.current)).image.Some? && s.Of(Other(s.current)).version.Some? && saved)
      && (t.current != s.current <==> s.Of(Other(s.current)).image.Some? && s.Of(Other(s.current)).version.Some?)
      && t.a == s.a && t.b == s.b
  {
  }

  // Whole updates.

  /** A manager whose worker has returned and which is between updates. */
  predicate Free(s: Ota) {
    s.phase == Off && s.progress.state in {Idle, Failed, Success, Rollback}
  }

  /** A free manager takes a job; one in the middle of an update refuses it. */
  lemma StartAnswers(s: Ota, job: Job)
    ensures Free(s) ==> StartUpdate(s, job) == (s.(progress := Progress(Idle, 0), phase := Spawning, job := job), true)
    ensures !Free(s) ==> StartUpdate(s, job) == (s, false)
  {
  }

  /** One update from the start call to the report of a good boot. */
  function WholeUpdate(cfg: Config, job: Job, image: seq<Byte>, saved: bool): seq<Step> {
    [Start(job)] + seq(13, _ => Worker(GoodIo(image)))
    + (if cfg.autoApply then [] else [Switch(BootIo(true, true, true))]) + [Report(true, true, saved)]
  }

  /** Main result: when nothing fails, start, worker, switch and report complete an update. The image and
      version are in the slot that was inactive, which is now current; the other one is as it was and is the
      one to go back to; and the version and the one new record follow. */
  lemma UpdateSucceeds(cfg: Config, s: Ota, job: Job, image: seq<Byte>, saved: bool)
    requires Free(s) && image != [] && cfg.passes(image, job.digest)
    ensures Run(cfg, s, WholeUpdate(cfg, job, image, saved)) == Ota(
      Progress(Success, 100), Off, job, Some(image),
      s.slots.With(Other(s.slots.current), Content(Some(image), Some(job.version)))
        .(current := Other(s.slots.current), lastGood := s.slots.current),
      Versions(job.version, job.version,
               s.versions.history + [Record(s.versions.current, job.version, Ascii("SUCCESS"))]))
  {
    StartAnswers(s, job);
    var work := [Start(job)] + seq(13, _ => Worker(GoodIo(image)));
    WorkerEnds(cfg, s, job, image);
    var ready := Run(cfg, s, work);
    var switch := if cfg.autoApply then [] else [Switch(BootIo(true, true, true))];
    RunAppend(cfg, s, work, switch);
    RunAppend(cfg, s, work + switch, [Report(true, true, saved)]);
    RunOne(cfg, ready, Switch(BootIo(true, true, true)));
    RunOne(cfg, Run(cfg, s, work + switch), Report(true, true, saved));
    assert work + [] == work;
    hide Run, StartUpdate;
    var waiting := Run(cfg, s, work + switch);
    assert waiting == ready.(progress := Progress(Rebooting, 100),
      slots := s.slots.With(Other(s.slots.current), Content(Some(image), Some(job.version)))
                 .(current := Other(s.slots.current), lastGood := s.slots.current));
  }

  lemma RunOne(cfg: Config, s: Ota, step: Step)
    ensures Run(cfg, s, [step]) == Apply1(cfg, s, step)
  {
    assert [step][..0] == [];
  }

  lemma WorkerEnds(cfg: Config, s: Ota, job: Job, image: seq<Byte>)
    requires StartUpdate(s, job).1 && image != [] && cfg.passes(image, job.digest)
    ensures var filled := s.slots.With(s.slots.Inactive(), Content(Some(image), Some(job.version)));
      Run(cfg, s, [Start(job)] + seq(13, _ => Worker(GoodIo(image)))) == Ota(
        if cfg.autoApply then Progress(Rebooting, 100) else Progress(ReadyToSwitch, 90),
        Off, job, Some(image),
        if cfg.autoApply then filled.(current := Other(s.slots.current), lastGood := s.slots.current) else filled,
        s.versions.(target := job.version))
  {
    RunAppend(cfg, s, [Start(job)], seq(13, _ => Worker(GoodIo(image))));
    RunOne(cfg, s, Start(job));
    RunWorkers(cfg, StartUpdate(s, job).0, GoodIo(image), 13);
    hide Run, StartUpdate, WorkOn;
    UpdateCompletes(cfg, s, job, image);
  }

  // Updates that fail.

  /** The worker finds the same at every step; what that is, and the percentage it fails with. */
  predicate Fails(cfg: Config, job: Job, io: WorkIo, percent: nat) {
    match io.source
    case None => percent == 0
    case Some(image) =>
      if !io.ok then percent == 15
      else if !cfg.passes(image, job.digest) then percent == 55
      else (image == [] || !io.outcome.Written?) && percent == 75
  }

  /** Main result: without a source, without a copy, with a wrong digest or when the slot cannot be written
      the update ends as failed, with the percentage that says where. Versions and history stay, the slots
      stay too unless the slot was being written, and the current one stays even then. */
  lemma UpdateFails(cfg: Config, s: Ota, job: Job, io: WorkIo, percent: nat)
    requires Free(s) && Fails(cfg, job, io, percent)
    ensures var t := WorkOn(cfg, StartUpdate(s, job).0, io, 11);
      && t.progress == Progress(Failed, percent) && t.phase == Off && t.versions == s.versions
      && t.slots.current == s.slots.current && t.slots.lastGood == s.slots.lastGood
      && t.slots.Of(s.slots.current) == s.slots.Of(s.slots.current)
      && (percent != 75 ==> t.slots == s.slots)
  {
    hide WorkOn;
    StartAnswers(s, job);
    var started := StartUpdate(s, job).0;
    var n := if percent == 0 then 4 else if percent == 15 then 6 else if percent == 55 then 8 else 11;
    WorkOnAdd(cfg, started, io, n, 11 - n);
    FailsInTime(cfg, started, io, percent, n);
    StaysOff(cfg, WorkOn(cfg, started, io, n), io, 11 - n);
  }

  lemma StaysOff(cfg: Config, s: Ota, io: WorkIo, n: nat)
    requires s.phase == Off
    ensures WorkOn(cfg, s, io, n) == s
    decreases n
  {
  }

  lemma FailsInTime(cfg: Config, s: Ota, io: WorkIo, percent: nat, n: nat)
    requires s.phase == Spawning && Fails(cfg, s.job, io, percent)
    requires n == if percent == 0 then 4 else if percent == 15 then 6 else if percent == 55 then 8 else 11
    ensures var t := WorkOn(cfg, s, io, n);
      && t.progress == Progress(Failed, percent) && t.phase == Off && t.versions == s.versions
      && t.slots.current == s.slots.current && t.slots.lastGood == s.slots.lastGood
      && t.slots.Of(s.slots.current) == s.slots.Of(s.slots.current)
      && (percent != 75 ==> t.slots == s.slots)
  {
    hide WorkOn;
    var t := s;
    var target := Other(s.slots.current);
    var path := [Spawning, Begin, OpenSource, AnnounceCopy, Copy, AnnounceVerify, Verify, AnnounceInstall, OpenSlot,
                 Fill(target)];
    for k := 0 to n
      invariant WorkOn(cfg, s, io, n) == WorkOn(cfg, t, io, n - k)
      invariant t.job == s.job && t.versions == s.versions
      invariant t.slots.current == s.slots.current && t.slots.lastGood == s.slots.lastGood
      invariant t.slots.Of(s.slots.current) == s.slots.Of(s.slots.current)
      invariant k <= 8 ==> t.slots == s.slots
      invariant t.phase == if k < n - 1 then path[k] else if k == n - 1 then Fail(percent) else Off
      invariant 5 <= k && percent >= 55 ==> t.staged == io.source
      invariant k == n ==> t.progress == Progress(Failed, percent)
    {
      NextWork(cfg, t, io, n - k);
      t := Work(cfg, t, io);
    }
    NoWork(cfg, t, io);
  }
}
