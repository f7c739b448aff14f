/** The UCM service and the OTA manager of one process together, in every interleaving of transfer calls,
    manager calls and worker steps: what is installed is what was handed over. */
module OtaJoint {
  import opened Bytes
  import opened FilePaths
  import opened SlotManager
  import I = UcmIds
  import M = OtaModel
  import Safety = OtaSafety
  import S = UcmSessions
  import U = UcmModel

  /** job is the handover the manager's last update was started for. */
  datatype Joint = Joint(ucm: U.Ucm, ota: M.Ota, job: Option<U.Handover>)

  /** Updates are started by processing a package and in no other way. */
  datatype Step =
    | Call(op: S.Op)
    | Process(id: Text)
    | Manager(step: M.Step)

  /** What may happen while the process runs, under safe ids. */
  predicate Fair(step: Step) {
    match step
    case Call(op) => S.SafeOp(op) && !op.Process? && !op.Reboot?
    case Process(id) => U.SafeId(id)
    case Manager(step) => !step.Start?
  }

  /** The image file as the worker finds it. */
  function Source(env: U.Env, j: Joint): Option<seq<Byte>> {
    if j.job.Some? && U.FileOf(env, j.job.value.path) in j.ucm.files
    then Some(j.ucm.files[U.FileOf(env, j.job.value.path)]) else None
  }

  /** A worker step that can open its source finds the image file there. */
  function Seen(env: U.Env, j: Joint, io: M.WorkIo): M.WorkIo {
    io.(source := if io.source.Some? then Source(env, j) else None)
  }

  /** The call on the service, with what it finds of the manager. */
  function Processing(j: Joint, id: Text): S.Op {
    S.Process(id, j.ota.versions.current, M.MayStart(j.ota.progress.state) && j.ota.phase == M.Off)
  }

  function ProcessPackage(env: U.Env, j: Joint, id: Text): Joint {
    var done := S.Apply(env, j.ucm, Processing(j, id));
    if done.errc != U.SUCCESS || done.ucm.handed == [] then j.(ucm := done.ucm) else
    var h := U.Last(done.ucm.handed);
    Joint(done.ucm, M.StartUpdate(j.ota, M.Job(h.digest, h.version)).0, Some(h))
  }

  function Next(env: U.Env, cfg: M.Config, j: Joint, step: Step): Joint {
    match step
    case Call(op) => j.(ucm := S.Apply(env, j.ucm, op).ucm)
    case Process(id) => ProcessPackage(env, j, id)
    case Manager(Worker(io)) => j.(ota := M.Work(cfg, j.ota, Seen(env, j, io)))
    case Manager(step) => j.(ota := M.Apply1(cfg, j.ota, step))
  }

  function Run(env: U.Env, cfg: M.Config, j: Joint, steps: seq<Step>): Joint {
    if steps == [] then j
    else Next(env, cfg, Run(env, cfg, j, steps[..|steps| - 1]), steps[|steps| - 1])
  }

  // The image file of a finished transfer stays as it is.

  /** Whatever has a session was issued. */
  ghost predicate Known(env: U.Env, u: U.Ucm) {
    forall id :: U.SafeId(id) && (id in u.sessions || U.MetaFile(env, id) in u.files) ==> I.Below(u.nextId, id)
  }

  /** The transfer behind the handover is over, its id used up, and its image file holds the image. */
  ghost predicate Settled(env: U.Env, u: U.Ucm, h: U.Handover, id: Text) {
    && U.SafeId(id) && I.Below(u.nextId, id) && id !in u.sessions && U.MetaFile(env, id) !in u.files
    && U.FileOf(env, h.path) == U.ImageFile(env, id)
    && U.ImageFile(env, id) in u.files && u.files[U.ImageFile(env, id)] == h.image
  }

  predicate NoCommonFile(env: U.Env, a: Text, b: Text) {
    {U.PackageFile(env, a), U.MetaFile(env, a), U.ImageFile(env, a)} !!
    {U.PackageFile(env, b), U.MetaFile(env, b), U.ImageFile(env, b)}
  }

  lemma NoCommonFiles(env: U.Env, a: Text, b: Text)
    requires U.SafeId(a) && U.SafeId(b) && a != b
    ensures NoCommonFile(env, a, b)
  {
    hide U.PackageFile, U.MetaFile, U.ImageFile, U.SafeId;
    U.SafeIdsApart(env, a, b);
    U.SafeIdsApart(env, b, a);
    U.SafeIdsApart(env, b, b);
    assert U.ImageFile(env, a) != U.ImageFile(env, b) by { ImagesDiffer(env, a, b); }
  }

  lemma ImagesDiffer(env: U.Env, a: Text, b: Text)
    requires U.SafeId(a) && U.SafeId(b) && a != b
    ensures U.ImageFile(env, a) != U.ImageFile(env, b)
  {
    hide U.ImageFile, Steps, U.SafeId;
    U.FilesOf(env, a);
    U.FilesOf(env, b);
    var end := Ascii(".zip") + Ascii(".img");
    assert a + Ascii(".zip") + Ascii(".img") == a + end && b + Ascii(".zip") + Ascii(".img") == b + end;
    assert (a + end)[..|a + end| - |end|] == a && (b + end)[..|b + end| - |end|] == b;
    assert U.Last(U.ImageFile(env, a)) == a + end && U.Last(U.ImageFile(env, b)) == b + end;
  }

  /** Calls on another id. */
  lemma SettledElsewhere(env: U.Env, u: U.Ucm, op: S.Op, h: U.Handover, id: Text)
    requires Settled(env, u, h, id) && op != S.Reboot && S.Subject(u, op) != Some(id)
    requires NoCommonFile(env, S.Subject(u, op).value, id)
    ensures Settled(env, S.Apply(env, u, op).ucm, h, id)
  {
    hide U.PackageFile, U.MetaFile, U.ImageFile, U.FileOf, U.SafeId, U.Decimal, U.SessionBytes, U.ParseSession,
      U.ContentsVerdict, I.Below, S.Subject;
    SubjectIs(u, op);
    NextIdGrows(env, u, op, id);
  }

  lemma SubjectIs(u: U.Ucm, op: S.Op)
    ensures op.Start? ==> S.Subject(u, op) == Some(U.Decimal(u.nextId))
    ensures op.Data? || op.Exit? || op.Delete? || op.Process? ==> S.Subject(u, op) == Some(op.id)
  {
  }

  lemma NextIdGrows(env: U.Env, u: U.Ucm, op: S.Op, id: Text)
    requires op != S.Reboot && I.Below(u.nextId, id)
    ensures I.Below(S.Apply(env, u, op).ucm.nextId, id)
  {
    hide S.Apply;
    I.TraceStep(env, u, op);
  }

  /** Calls on the very id find no transfer, and a start does not issue it again. */
  lemma SettledHere(env: U.Env, u: U.Ucm, op: S.Op, h: U.Handover, id: Text)
    requires Settled(env, u, h, id) && op != S.Reboot && S.Subject(u, op) == Some(id)
    ensures Settled(env, S.Apply(env, u, op).ucm, h, id)
  {
    hide U.PackageFile, U.MetaFile, U.ImageFile, U.FileOf, U.SafeId, U.Decimal, I.Below;
    I.NextIsNew(u.nextId);
  }

  lemma SettledStays(env: U.Env, u: U.Ucm, op: S.Op, h: U.Handover, id: Text)
    requires Settled(env, u, h, id) && op != S.Reboot && S.SafeOp(op)
    ensures Settled(env, S.Apply(env, u, op).ucm, h, id)
  {
    hide Settled, S.Apply, U.SafeId, U.Decimal;
    if S.Subject(u, op) == Some(id) {
      SettledHere(env, u, op, h, id);
    } else {
      S.SubjectSafe(u, op);
      assert U.SafeId(id) by { SettledSafe(env, u, h, id); }
      hide NoCommonFile;
      NoCommonFiles(env, SubjectOf(u, op), id);
      SettledElsewhere(env, u, op, h, id);
    }
  }

  lemma SettledSafe(env: U.Env, u: U.Ucm, h: U.Handover, id: Text)
    requires Settled(env, u, h, id)
    ensures U.SafeId(id)
  {
  }

  function SubjectOf(u: U.Ucm, op: S.Op): Text
    requires op != S.Reboot
  {
    S.Subject(u, op).value
  }

  /** A handed-over package leaves a settled transfer. */
  lemma HandedIsSettled(env: U.Env, u: U.Ucm, op: S.Op)
    requires op.Process? && U.SafeId(op.id) && I.Below(u.nextId, op.id)
    requires S.Apply(env, u, op).errc == U.SUCCESS
    ensures var u' := S.Apply(env, u, op).ucm;
      u'.handed != [] && u'.handed != u.handed && Settled(env, u', U.Last(u'.handed), op.id)
  {
    hide U.PackageFile, U.MetaFile, U.ImageFile, U.FileOf, U.ImagePath, U.SafeId, U.Apart, I.Below, U.ContentsVerdict;
    U.SafeIdsApart(env, op.id, op.id);
    U.ImageOpens(env, op.id);
  }

  lemma KnownStays(env: U.Env, u: U.Ucm, op: S.Op)
    requires Known(env, u) && op != S.Reboot && S.SafeOp(op)
    ensures Known(env, S.Apply(env, u, op).ucm)
  {
    hide S.Apply, S.SafeOp, U.SafeId, U.MetaFile, I.Below;
    var u' := S.Apply(env, u, op).ucm;
    forall id | U.SafeId(id) && (id in u'.sessions || U.MetaFile(env, id) in u'.files) ensures I.Below(u'.nextId, id) {
      KnownOne(env, u, op, id);
      if id in u.sessions || U.MetaFile(env, id) in u.files { NextIdGrows(env, u, op, id); }
    }
  }

  /** Only a start that issues the id can give it a session. */
  lemma KnownOne(env: U.Env, u: U.Ucm, op: S.Op, id: Text)
    requires op != S.Reboot && S.SafeOp(op) && U.SafeId(id)
    requires var u' := S.Apply(env, u, op).ucm; id in u'.sessions || U.MetaFile(env, id) in u'.files
    ensures var u' := S.Apply(env, u, op).ucm;
      id in u.sessions || U.MetaFile(env, id) in u.files || I.Below(u'.nextId, id)
  {
    hide U.PackageFile, U.MetaFile, U.ImageFile, U.SafeId, U.Decimal, U.SessionBytes, U.ParseSession,
      U.ContentsVerdict, U.Apart, S.Kept;
    S.SubjectSafe(u, op);
    if S.Subject(u, op) != Some(id) {
      U.SafeIdsApart(env, SubjectOf(u, op), id);
      S.OthersUntouched(env, u, op, id);
      assert U.MetaFile(env, id) in S.Apply(env, u, op).ucm.files ==> U.MetaFile(env, id) in u.files by {
        KeptMeta(env, u, S.Apply(env, u, op).ucm, id);
      }
    } else {
      U.SafeIdsApart(env, id, id);
    }
  }

  lemma KeptMeta(env: U.Env, u: U.Ucm, u': U.Ucm, id: Text)
    requires S.Kept(env, u, u', id)
    ensures U.MetaFile(env, id) in u'.files <==> U.MetaFile(env, id) in u.files
  {
    hide U.PackageFile, U.MetaFile, S.Blocks;
    assert U.MetaFile(env, id) in {U.PackageFile(env, id), U.MetaFile(env, id)};
  }

  // The manager's job is the handover.

  /** An update is under way, or its result stands. */
  predicate Busy(s: M.Ota) {
    s.phase != M.Off || s.progress.state in {M.ReadyToSwitch, M.Rebooting, M.Success}
  }

  /** The staging file has been filled. */
  predicate Filled(s: M.Ota) {
    || s.phase in {M.AnnounceVerify, M.Verify, M.AnnounceInstall, M.OpenSlot, M.SetTarget, M.AnnounceReady}
    || s.phase.Fill?
    || s.progress.state in {M.ReadyToSwitch, M.Rebooting, M.Success}
  }

  ghost predicate Matches(s: M.Ota, job: Option<U.Handover>) {
    && (Busy(s) ==> job.Some? && s.job == M.Job(job.value.digest, job.value.version))
    && (Filled(s) ==> job.Some? && s.staged == Some(job.value.image))
  }

  lemma ManagerMatches(cfg: M.Config, s: M.Ota, step: M.Step, job: Option<U.Handover>)
    requires Safety.Safe(cfg, s) && Matches(s, job) && !step.Start?
    requires step.Worker? && step.io.source.Some? ==> job.Some? && step.io.source == Some(job.value.image)
    ensures Matches(M.Apply1(cfg, s, step), job)
  {
    hide Safety.Holds;
  }

  // Together.

  ghost predicate FromHandover(env: U.Env, j: Joint) {
    j.job.Some? ==>
      && j.job.value in j.ucm.handed && S.Authentic(env, j.ucm.trace, j.job.value)
      && exists id :: Settled(env, j.ucm, j.job.value, id)
  }

  ghost predicate Inv(env: U.Env, cfg: M.Config, j: Joint) {
    && S.AllSound(env, j.ucm) && Known(env, j.ucm)
    && Safety.Safe(cfg, j.ota) && Matches(j.ota, j.job) && FromHandover(env, j)
  }

  /** The service's part after any call. */
  lemma ServiceStep(env: U.Env, j: Joint, op: S.Op)
    requires S.AllSound(env, j.ucm) && Known(env, j.ucm) && FromHandover(env, j)
    requires S.SafeOp(op) && op != S.Reboot
    ensures var u' := S.Apply(env, j.ucm, op).ucm;
      S.AllSound(env, u') && Known(env, u') && FromHandover(env, j.(ucm := u'))
  {
    hide S.Apply, S.SafeOp, S.Sound, S.Authentic, U.SafeId, Settled, Known, S.Subject;
    var u' := S.Apply(env, j.ucm, op).ucm;
    forall id | U.SafeId(id) ensures S.Sound(env, u', id) { S.ApplySound(env, j.ucm, op, id); }
    KnownStays(env, j.ucm, op);
    S.SubjectSafe(j.ucm, op);
    S.HandoverAuthentic(env, j.ucm, op);
    if j.job.Some? {
      var h := j.job.value;
      var id :| Settled(env, j.ucm, h, id);
      SettledStays(env, j.ucm, op, h, id);
      S.AuthenticStays(env, j.ucm.trace, u'.trace, h);
      assert h in u'.handed by { StaysHanded(j.ucm.handed, u'.handed, h); }
    }
  }

  lemma StaysHanded(a: seq<U.Handover>, b: seq<U.Handover>, h: U.Handover)
    requires h in a && (a == b || (|b| == |a| + 1 && b[..|a|] == a))
    ensures h in b
  {
    var i :| 0 <= i < |a| && a[i] == h;
    if a != b { assert b[i] == b[..|a|][i]; }
  }

  lemma ProcessInv(env: U.Env, cfg: M.Config, j: Joint, id: Text)
    requires Inv(env, cfg, j) && U.SafeId(id)
    ensures Inv(env, cfg, ProcessPackage(env, j, id))
  {
    hide S.Apply, S.AllSound, S.Sound, S.Authentic, U.SafeId, Settled, Known, Safety.Safe, S.Subject, S.SafeOp;
    var op := Processing(j, id);
    assert S.SafeOp(op) by { ProcessSafe(j, id); }
    ServiceStep(env, j, op);
    var done := S.Apply(env, j.ucm, op);
    if done.errc == U.SUCCESS {
      SubjectIs(j.ucm, op);
      SoundAt(env, j.ucm, id);
      S.HandoverAuthentic(env, j.ucm, op);
      ProcessKnown(env, j, id);
      HandedIsSettled(env, j.ucm, op);
      var h := U.Last(done.ucm.handed);
      assert Settled(env, done.ucm, h, id);
      Safety.StepSafe(cfg, j.ota, M.Start(M.Job(h.digest, h.version)));
      AcceptedStarts(env, j, id);
    }
  }

  lemma ProcessSafe(j: Joint, id: Text)
    requires U.SafeId(id)
    ensures S.SafeOp(Processing(j, id))
  {
  }

  lemma SoundAt(env: U.Env, u: U.Ucm, id: Text)
    requires S.AllSound(env, u) && U.SafeId(id)
    ensures S.Sound(env, u, id)
  {
  }

  lemma ProcessKnown(env: U.Env, j: Joint, id: Text)
    requires Known(env, j.ucm) && U.SafeId(id) && S.Apply(env, j.ucm, Processing(j, id)).errc == U.SUCCESS
    ensures I.Below(j.ucm.nextId, id)
  {
  }

  /** The service reports success only if the manager takes the image. */
  lemma AcceptedStarts(env: U.Env, j: Joint, id: Text)
    requires S.Apply(env, j.ucm, Processing(j, id)).errc == U.SUCCESS
    ensures M.MayStart(j.ota.progress.state) && j.ota.phase == M.Off
  {
  }

  lemma WorkerInv(env: U.Env, cfg: M.Config, j: Joint, io: M.WorkIo)
    requires Inv(env, cfg, j)
    ensures Inv(env, cfg, j.(ota := M.Work(cfg, j.ota, Seen(env, j, io))))
  {
    hide S.AllSound, S.Authentic, Known, Safety.Safe, Matches, M.Work, U.FileOf, U.ImageFile, U.MetaFile;
    Safety.StepSafe(cfg, j.ota, M.Worker(Seen(env, j, io)));
    if Seen(env, j, io).source.Some? {
      var id :| Settled(env, j.ucm, j.job.value, id);
    }
    ManagerMatches(cfg, j.ota, M.Worker(Seen(env, j, io)), j.job);
  }

  lemma NextInv(env: U.Env, cfg: M.Config, j: Joint, step: Step)
    requires Inv(env, cfg, j) && Fair(step)
    ensures Inv(env, cfg, Next(env, cfg, j, step))
  {
    match step
    case Call(op) =>
      hide S.Apply, S.AllSound, S.SafeOp, Known, Safety.Safe, Matches, FromHandover;
      ServiceStep(env, j, op);
    case Process(id) =>
      hide ProcessPackage, Inv, U.SafeId;
      ProcessInv(env, cfg, j, id);
    case Manager(step) =>
      hide S.AllSound, Known, Safety.Safe, Matches, M.Work, FromHandover;
      if step.Worker? {
        hide Inv;
        WorkerInv(env, cfg, j, step.io);
      } else {
        Safety.StepSafe(cfg, j.ota, step);
        ManagerMatches(cfg, j.ota, step, j.job);
        hide M.Apply1;
        SameHandover(env, j, M.Apply1(cfg, j.ota, step));
      }
  }

  lemma SameHandover(env: U.Env, j: Joint, s: M.Ota)
    requires FromHandover(env, j)
    ensures FromHandover(env, j.(ota := s))
  {
  }

  /** A freshly started process with no transfer left over. */
  ghost predicate Started(env: U.Env, j: Joint) {
    && j.ucm.sessions == map[] && j.ucm.handed == [] && j.job.None? && M.Fresh(j.ota)
    && forall id :: U.MetaFile(env, id) !in j.ucm.files
  }

  lemma {:induction false} RunInv(env: U.Env, cfg: M.Config, start: Joint, steps: seq<Step>)
    requires Started(env, start) && forall step :: step in steps ==> Fair(step)
    ensures Inv(env, cfg, Run(env, cfg, start, steps))
    decreases |steps|
  {
    if steps == [] {
      hide U.MetaFile;
    } else {
      hide Inv, Next, Fair, Started;
      RunInv(env, cfg, start, steps[..|steps| - 1]);
      NextInv(env, cfg, Run(env, cfg, start, steps[..|steps| - 1]), steps[|steps| - 1]);
    }
  }

  /** Main result: in every run of the service and the manager together, whatever transfers, calls and
      failures come in between, the slot that is ready to be switched to, rebooting or running after an
      update holds, byte for byte and under its version, the payload of an authentic package that was handed
      over, and the job is the one for that handover. */
  lemma JointDelivery(env: U.Env, cfg: M.Config, start: Joint, steps: seq<Step>)
    requires Started(env, start) && forall step :: step in steps ==> Fair(step)
    ensures var j := Run(env, cfg, start, steps);
      j.ota.progress.state in {M.ReadyToSwitch, M.Rebooting, M.Success} ==>
        && j.job.Some?
        && var h := j.job.value;
        var slot := if j.ota.progress.state == M.ReadyToSwitch then j.ota.slots.Inactive() else j.ota.slots.current;
        && h in j.ucm.handed && S.Authentic(env, j.ucm.trace, h)
        && j.ota.job == M.Job(h.digest, h.version)
        && j.ota.slots.Of(slot) == Content(Some(h.image), Some(h.version))
  {
    RunInv(env, cfg, start, steps);
    hide Run, S.AllSound, Known, S.Authentic, Settled, Started, Fair;
  }
}
