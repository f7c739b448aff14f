/** The OTA manager over its slot and version managers. Each method is one step of the model: the API
    calls hold the lock for their whole length, the worker takes and releases it between its steps. */
module OtaManager {
  import opened Bytes
  import M = OtaModel
  import S = SlotManager
  import V = VersionManager

  class OtaManager {
    const cfg: M.Config
    const slots: S.MockSlotManager
    const versions: V.VersionManager
    var state: M.State
    var percent: nat
    var phase: M.Phase
    var job: M.Job
    var staged: Option<seq<Byte>>

    function Model(): M.Ota
      reads this, slots, versions
    {
      M.Ota(M.Progress(state, percent), phase, job, staged, slots.View(), versions.View())
    }

    constructor (cfg: M.Config, slots: S.MockSlotManager, versions: V.VersionManager)
      ensures this.cfg == cfg && this.slots == slots && this.versions == versions
      ensures Model() == M.Ota(M.Progress(M.Idle, 0), M.Off, M.Job([], []), None, slots.View(), versions.View())
    {
      this.cfg, this.slots, this.versions := cfg, slots, versions;
      state, percent, phase, job, staged := M.Idle, 0, M.Off, M.Job([], []), None;
    }

    method SetProgress(state: M.State, percent: nat)
      modifies this`state, this`percent
      ensures this.state == state && this.percent == percent
    {
      this.state, this.percent := state, percent;
    }

    /** blocked: the call does not return. */
    method StartUpdate(digest: Text, version: Text) returns (ok: bool, blocked: bool)
      modifies this
      ensures blocked == M.Blocks(old(Model()))
      ensures (Model(), ok) == M.StartUpdate(old(Model()), M.Job(digest, version))
    {
      if state != M.Idle && state != M.Failed && state != M.Success && state != M.Rollback {
        return false, false;
      }
      if phase != M.Off {
        return false, true;
      }
      SetProgress(M.Idle, 0);
      phase, job := M.Spawning, M.Job(digest, version);
      return true, false;
    }

    method SwitchAndReboot(io: M.BootIo) returns (ok: bool)
      modifies this`state, this`percent, slots
      ensures (Model(), ok) == M.SwitchAndReboot(old(Model()), io)
    {
      if state != M.ReadyToSwitch {
        return false;
      }
      if !io.nextSet {
        SetProgress(M.Failed, percent);
        return false;
      }
      var activated := slots.Activate(io.saved);
      if !activated {
        SetProgress(M.Failed, percent);
        return false;
      }
      if !io.rebooted {
        SetProgress(M.Failed, percent);
        return false;
      }
      SetProgress(M.Rebooting, 100);
      return true;
    }

    method ReportBootResult(success: bool, marked: bool, saved: bool) returns (ok: bool)
      modifies this`state, this`percent, slots, versions
      ensures (Model(), ok) == M.ReportBootResult(old(Model()), success, marked, saved)
    {
      if state != M.Rebooting {
        return false;
      }
      var from, to := versions.current, versions.target;
      if !marked {
        SetProgress(M.Failed, 100);
        return false;
      }
      if success {
        versions.AddRecord(from, to, M.SUCCESS_MARK);
        versions.SetCurrent(to);
        SetProgress(M.Success, 100);
        return true;
      }
      var back := slots.Rollback(saved);
      if !back {
        SetProgress(M.Failed, 100);
        return false;
      }
      versions.AddRecord(from, to, M.ROLLBACK_MARK);
      SetProgress(M.Rollback, 100);
      return true;
    }

    method Rollback(saved: bool) returns (ok: bool)
      modifies this`state, this`percent, slots
      ensures (Model(), ok) == M.ManualRollback(old(Model()), saved)
    {
      if state != M.ReadyToSwitch && state != M.Rebooting {
        return false;
      }
      var back := slots.Rollback(saved);
      if !back {
        SetProgress(M.Failed, percent);
        return false;
      }
      SetProgress(M.Rollback, 100);
      return true;
    }

    /** The next step of the worker thread. */
    method WorkerStep(io: M.WorkIo)
      modifies this, slots, versions
      ensures Model() == M.Work(cfg, old(Model()), io)
    {
      match phase {
        case Off =>
        case Spawning => phase := M.Begin;
        case Begin =>
          SetProgress(M.Checking, 1);
          phase := M.OpenSource;
        case OpenSource =>
          phase := if io.source.Some? then M.AnnounceCopy else M.Fail(0);
        case AnnounceCopy =>
          SetProgress(M.Downloading, 15);
          phase := M.Copy;
        case Copy =>
          if io.source.Some? && io.ok {
            staged, phase := io.source, M.AnnounceVerify;
          } else {
            staged, phase := None, M.Fail(15);
          }
        case AnnounceVerify =>
          SetProgress(M.Verifying, 55);
          phase := M.Verify;
        case Verify =>
          phase := if staged.Some? && io.ok && cfg.passes(staged.value, job.digest)
            then M.AnnounceInstall else M.Fail(55);
        case AnnounceInstall =>
          SetProgress(M.Installing, 75);
          phase := M.OpenSlot;
        case OpenSlot => OpenSlotStep(io);
        case Fill(target) => FillStep(io, target);
        case SetTarget =>
          versions.SetTarget(job.version);
          phase := M.AnnounceReady;
        case AnnounceReady =>
          SetProgress(M.ReadyToSwitch, 90);
          phase := if cfg.autoApply then M.Apply else M.Off;
        case Apply =>
          var _ := SwitchAndReboot(io.boot);
          phase := M.Off;
        case Fail(p) =>
          SetProgress(M.Failed, p);
          phase := M.Off;
      }
    }

    method OpenSlotStep(io: M.WorkIo)
      requires phase == M.OpenSlot
      modifies this`phase, slots
      ensures Model() == M.Work(cfg, old(Model()), io)
    {
      if !io.ok || staged.None? {
        phase := M.Fail(75);
      } else {
        var target := slots.OpenInactive();
        phase := M.Fill(target);
      }
    }

    method FillStep(io: M.WorkIo, target: S.Slot)
      requires phase == M.Fill(target)
      modifies this`phase, slots
      ensures Model() == M.Work(cfg, old(Model()), io)
    {
      if staged.None? {
        phase := M.Fail(75);
      } else {
        var ok := slots.FillSlot(target, staged.value, job.version, io.outcome);
        phase := if ok then M.SetTarget else M.Fail(75);
      }
    }
  }
}
