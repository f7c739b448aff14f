/** The whole chain, from a downloaded payload to the inactive slot: update agent, UCM service, OTA manager
    and CRC-32 verification together. */
module OtaPipeline {
  import opened Bytes
  import opened UcmService
  import opened OtaManager
  import C = Crc32
  import A = UpdateAgent
  import U = UcmModel
  import P = PackageManifest
  import M = OtaModel
  import S = SlotManager
  import Safety = OtaSafety

  /** Both sides use CRC-32: the service to compute the digest it hands over, the manager to check it. */
  ghost predicate UsesCrc(env: U.Env, cfg: M.Config) {
    && (forall image :: env.digest(image) == C.Digest(image))
    && (forall image, digest :: cfg.passes(image, digest) == C.Passes(Some(image), digest))
  }

  lemma CrcAgrees(env: U.Env, cfg: M.Config, original: seq<Byte>, image: seq<Byte>)
    requires UsesCrc(env, cfg)
    ensures cfg.passes(image, env.digest(original)) == C.Passes(Some(image), C.Digest(original))
  {
    hide C.Passes, C.Digest;
  }

  /** Main result: in every run, an image that was damaged within four consecutive bytes after its digest
      was taken is never the one a slot is ready with, rebooting with or running on. */
  lemma DamageNeverInstalled(env: U.Env, cfg: M.Config, start: M.Ota, steps: seq<M.Step>,
                             before: seq<Byte>, u: seq<Byte>, w: seq<Byte>, after: seq<Byte>)
    requires UsesCrc(env, cfg) && M.Fresh(start) && |u| == |w| <= 4
    requires var s := M.Run(cfg, start, steps);
      && s.progress.state in {M.ReadyToSwitch, M.Rebooting, M.Success}
      && s.job.digest == env.digest(before + u + after)
      && s.staged == Some(before + w + after)
    ensures u == w
  {
    hide M.Run, M.Fresh, C.Passes, C.Digest, UsesCrc;
    Safety.VerifiedImage(cfg, start, steps);
    C.VerifyDetectsBurst(before, u, w, after);
    CrcAgrees(env, cfg, before + u + after, before + w + after);
  }

  /** An empty image passes every check and still fails: nothing can be copied into the slot. */
  lemma EmptyImageFails(cfg: M.Config, s: M.Ota, job: M.Job)
    requires M.StartUpdate(s, job).1 && cfg.passes([], job.digest)
    ensures Safety.WorkOn(cfg, M.StartUpdate(s, job).0, Safety.GoodIo([]), 13).progress.state == M.Failed
  {
    hide Safety.WorkOn;
    var io := Safety.GoodIo([]);
    var t := M.StartUpdate(s, job).0;
    Safety.WorkOnAdd(cfg, t, io, 7, 6);
    Safety.VerifiedInSeven(cfg, t, []);
    var s0 := Safety.WorkOn(cfg, t, io, 7);
    var s1 := M.Work(cfg, s0, io);
    var s2 := M.Work(cfg, s1, io);
    var s3 := M.Work(cfg, s2, io);
    var s4 := M.Work(cfg, s3, io);
    var s5 := M.Work(cfg, s4, io);
    Safety.NextWork(cfg, s0, io, 6);
    Safety.NextWork(cfg, s1, io, 5);
    Safety.NextWork(cfg, s2, io, 4);
    Safety.NextWork(cfg, s3, io, 3);
    Safety.NextWork(cfg, s4, io, 2);
    Safety.NextWork(cfg, s5, io, 1);
    Safety.NoWork(cfg, M.Work(cfg, s5, io), io);
  }

  /** The worker run undisturbed on the staged source: thirteen steps take it to its end. */
  method RunWorker(mgr: OtaManager, image: seq<Byte>)
    modifies mgr, mgr.slots, mgr.versions
    ensures mgr.Model() == Safety.WorkOn(mgr.cfg, old(mgr.Model()), Safety.GoodIo(image), 13)
  {
    hide Safety.WorkOn, M.Work;
    ghost var s := mgr.Model();
    var io := Safety.GoodIo(image);
    Safety.NoWork(mgr.cfg, s, io);
    for k := 0 to 13
      invariant mgr.Model() == Safety.WorkOn(mgr.cfg, s, io, k)
    {
      Safety.WorkOnAdd(mgr.cfg, s, io, k, 1);
      Safety.NextWork(mgr.cfg, mgr.Model(), io, 1);
      mgr.WorkerStep(io);
      Safety.NoWork(mgr.cfg, mgr.Model(), io);
    }
  }

  /** Main result: when the files behave, an update of an idle manager goes through exactly when there is
      space, version 1.0.0 is installed and the new version is another one; then what was the inactive slot
      holds the payload byte for byte under the new version while the running slot's content, the installed
      version and the history are what they were. A manager that switches on its own is rebooting into the
      payload. Only an empty payload fails, in the manager, unnoticed by the agent. */
  method Deliver(svc: UcmService, mgr: OtaManager, payload: seq<Byte>, version: Text, available: Option<nat>)
    returns (ok: bool)
    requires UsesCrc(svc.env, mgr.cfg)
    requires var m := A.AgentManifest(svc.env, version, payload);
      |P.Blob(m)| < U32 && |P.Package(m, payload)| < U64
    modifies svc, mgr, mgr.slots, mgr.versions
    ensures ok <==>
      && (available.Some? ==> |P.Package(A.AgentManifest(svc.env, version, payload), payload)| <= available.value)
      && old(mgr.versions.current) == Ascii("1.0.0") && version != old(mgr.versions.current)
      && M.StartUpdate(old(mgr.Model()), M.Job(C.Digest(payload), version)).1
    ensures ok && payload != [] ==>
      var before := old(mgr.Model());
      var filled := before.slots.With(before.slots.Inactive(), S.Content(Some(payload), Some(version)));
      && mgr.versions.View() == before.versions.(target := version)
      && (if mgr.cfg.autoApply
          then mgr.state == M.Rebooting &&
            mgr.slots.View() == filled.(current := S.Other(before.slots.current), lastGood := before.slots.current)
          else mgr.state == M.ReadyToSwitch && mgr.slots.View() == filled)
    ensures ok && payload == [] ==> mgr.state == M.Failed
    ensures !ok ==> mgr.Model() == old(mgr.Model())
  {
    hide A.AgentManifest, P.Blob, P.Package, C.Digest, Safety.WorkOn, U.Decimal, U.ImageFile, U.ImagePath;
    ghost var before := mgr.Model();
    var job := M.Job(C.Digest(payload), version);
    var accepted := M.StartUpdate(mgr.Model(), job).1;
    ghost var blocks;
    DigestNotEmpty(payload);
    ok, blocks := A.Update(svc, Some(payload), version, available, mgr.versions.current, accepted);
    if !ok {
      return;
    }
    var handed := svc.handed[|svc.handed| - 1];
    assert handed.digest == C.Digest(payload);
    var started, blocked := mgr.StartUpdate(handed.digest, handed.version);
    U.ImageOpens(svc.env, U.Decimal(old(svc.nextId)));
    RunWorker(mgr, svc.files[U.FileOf(svc.env, handed.path)]);
    assert mgr.cfg.passes(payload, job.digest) by { DigestPasses(payload); }
    if payload != [] {
      Safety.UpdateCompletes(mgr.cfg, before, job, payload);
    } else {
      EmptyImageFails(mgr.cfg, before, job);
    }
  }

  lemma DigestNotEmpty(image: seq<Byte>)
    ensures C.Digest(image) != []
  {
    assert |C.Digest(image)| == 8;
  }

  lemma DigestPasses(image: seq<Byte>)
    ensures C.Passes(Some(image), C.Digest(image))
  {
  }
}
