/** Which answer the service gives to which call, by error code. */
module UcmAnswers {
  import opened Bytes
  import opened FilePaths
  import opened UcmModel
  import opened UcmSessions
  import P = PackageManifest

  // Transfers.

  /** The size announced for an id when it was last issued, unless its transfer was dropped since. */
  function Announced(trace: seq<Event>, id: Text): Option<nat> {
    if trace == [] then None else
    var before, e := Announced(trace[..|trace| - 1], id), trace[|trace| - 1];
    if e.id != id then before else
    match e
    case Opened(_, size) => Some(size)
    case Block(_, _, _) => before
    case Dropped(_) => None
  }

  lemma AnnouncedAfter(trace: seq<Event>, e: Event, id: Text)
    ensures Announced(trace + [e], id) ==
      if e.id != id || e.Block? then Announced(trace, id) else if e.Opened? then Some(e.size) else None
  {
    assert (trace + [e])[..|trace|] == trace;
  }

  /** A session is persisted exactly while a transfer is announced, and remembers the announced size. */
  ghost predicate Known(env: Env, u: Ucm, id: Text) {
    && (MetaFile(env, id) in u.files <==> Announced(u.trace, id).Some?)
    && (MetaFile(env, id) in u.files ==>
          && Load(env, u.files, id).Some?
          && Announced(u.trace, id) == Some(Load(env, u.files, id).value.expectedBytes))
  }

  /** A call on one id adds no event of another. */
  lemma EventOfSubject(env: Env, u: Ucm, op: Op)
    requires op != Reboot
    ensures var u' := Apply(env, u, op).ucm;
      || u'.trace == u.trace
      || exists e: Event :: u'.trace == u.trace + [e] && e.id == Subject(u, op).value
  {
    hide Decimal, MetaFile, PackageFile, ImageFile, SessionBytes, ParseSession, ContentsVerdict;
    var u' := Apply(env, u, op).ucm;
    if u'.trace != u.trace {
      var e := u'.trace[|u.trace|];
      assert u'.trace == u.trace + [e];
    }
  }

  lemma OtherKnown(env: Env, u: Ucm, op: Op, id: Text)
    requires Known(env, u, id) && op != Reboot && Subject(u, op) != Some(id)
    requires Same(env, u, Apply(env, u, op).ucm, id)
    ensures Known(env, Apply(env, u, op).ucm, id)
  {
    hide Apply, Blocks, Announced, MetaFile, PackageFile, ParseSession, Decimal;
    EventOfSubject(env, u, op);
    assert MetaFile(env, id) in {PackageFile(env, id), MetaFile(env, id)};
    var u' := Apply(env, u, op).ucm;
    if u'.trace != u.trace {
      var e: Event :| u'.trace == u.trace + [e] && e.id == Subject(u, op).value;
      AnnouncedAfter(u.trace, e, id);
    }
  }

  lemma DataKnown(env: Env, u: Ucm, id: Text, block: seq<Byte>, counter: Word64, openable: bool)
    requires Known(env, u, id) && Sound(env, u, id) && Own(env, id)
    ensures Known(env, TransferData(env, u, id, block, counter, openable).ucm, id)
  {
    hide Announced, Blocks, Flatten, MetaFile, PackageFile, ImageFile, SessionBytes, ParseSession;
    AnnouncedAfter(u.trace, Block(id, counter, block), id);
    var found := Resolve(env, u, id);
    if found.Some? && BlockVerdict(found.value, block, counter, openable) == SUCCESS {
      SessionRoundTrip(NextSession(found.value, block));
    }
  }

  lemma StartKnown(env: Env, u: Ucm, size: Word64, available: Option<nat>, openable: bool)
    requires Known(env, u, Decimal(u.nextId)) && Own(env, Decimal(u.nextId))
    ensures Known(env, TransferStart(env, u, size, available, openable).ucm, Decimal(u.nextId))
  {
    hide Announced, MetaFile, PackageFile, ImageFile, SessionBytes, ParseSession, Decimal;
    AnnouncedAfter(u.trace, Opened(Decimal(u.nextId), size), Decimal(u.nextId));
    SessionRoundTrip(Session(size, 0, 1));
  }

  lemma ProcessKnown(env: Env, u: Ucm, id: Text, current: Text, accepted: bool)
    requires Known(env, u, id) && Own(env, id)
    ensures Known(env, ProcessSwPackage(env, u, id, current, accepted).ucm, id)
  {
    hide Announced, MetaFile, PackageFile, ImageFile, SessionBytes, ParseSession, ContentsVerdict, P.Unpack;
    AnnouncedAfter(u.trace, Dropped(id), id);
  }

  lemma DeleteKnown(env: Env, u: Ucm, id: Text)
    requires Known(env, u, id)
    ensures Known(env, DeleteTransfer(env, u, id).ucm, id)
  {
    hide Announced, MetaFile, PackageFile, ParseSession;
    AnnouncedAfter(u.trace, Dropped(id), id);
  }

  lemma ApplyKnown(env: Env, u: Ucm, op: Op, id: Text)
    requires Known(env, u, id) && Sound(env, u, id) && SafeId(id) && SafeOp(op)
    ensures Known(env, Apply(env, u, op).ucm, id)
  {
    hide Known, Sound, TransferStart, TransferData, ProcessSwPackage, DeleteTransfer, Decimal, SafeId, Own, Apart;
    SafeIdsApart(env, id, id);
    if op != Reboot && Subject(u, op) != Some(id) {
      SubjectSafe(u, op);
      SafeIdsApart(env, Subject(u, op).value, id);
      OthersUntouched(env, u, op, id);
      OtherKnown(env, u, op, id);
    } else {
      match op
      case Start(size, available, openable) => StartKnown(env, u, size, available, openable);
      case Data(_, block, counter, openable) => DataKnown(env, u, id, block, counter, openable);
      case Exit(_) =>
      case Delete(_) => DeleteKnown(env, u, id);
      case Process(_, current, accepted) => ProcessKnown(env, u, id, current, accepted);
      case Reboot => RestartKnown(env, u, id);
    }
  }

  lemma RestartKnown(env: Env, u: Ucm, id: Text)
    requires Known(env, u, id)
    ensures Known(env, Restart(u), id)
  {
  }

  /** In every run a session is persisted exactly while its transfer is announced. */
  lemma {:induction false} AnnouncedInvariant(env: Env, start: Ucm, ops: seq<Op>, id: Text)
    requires start.sessions == map[] && start.trace == [] && MetaFile(env, id) !in start.files
    requires SafeId(id) && SafeScript(ops)
    ensures Known(env, Run(env, start, ops), id) && Sound(env, Run(env, start, ops), id)
    decreases |ops|
  {
    hide Apply, SafeId, SafeOp, Sound;
    SessionInvariant(env, start, ops, id);
    if ops != [] {
      hide Known;
      AnnouncedInvariant(env, start, ops[..|ops| - 1], id);
      assert ops[|ops| - 1] in ops;
      ApplyKnown(env, Run(env, start, ops[..|ops| - 1]), ops[|ops| - 1], id);
    }
  }

  /** Main result: the answer to a block, in every run, is decided by what was announced and accepted for its
      id, however often the service was restarted. Each fault has its code: no transfer, not the next block,
      too many bytes, a file that cannot be opened, looked for in this order. */
  lemma TransferDataAnswers(env: Env, start: Ucm, ops: seq<Op>, id: Text, block: seq<Byte>, counter: Word64,
                            openable: bool)
    requires start.sessions == map[] && start.trace == [] && MetaFile(env, id) !in start.files
    requires SafeId(id) && SafeScript(ops)
    ensures var u := Run(env, start, ops);
      var size, sent := Announced(u.trace, id), Blocks(u.trace, id);
      var next := counter == (1 + |sent|) % U64;
      var fits := size.Some? && |Flatten(sent)| + |block| <= size.value;
      var errc := TransferData(env, u, id, block, counter, openable).errc;
      && (errc == 1 <==> size.None?)
      && (errc == 15 <==> size.Some? && !next)
      && (errc == 18 <==> size.Some? && next && !fits)
      && (errc == 4 <==> size.Some? && next && fits && !openable)
      && (errc == 0 <==> size.Some? && next && fits && openable)
  {
    hide Run, SafeId, SafeScript, Announced, Blocks, Flatten, MetaFile, PackageFile, ParseSession, SessionBytes;
    AnnouncedInvariant(env, start, ops, id);
    DataSoundFrom(env, Run(env, start, ops), id);
  }

  /** The answer to closing a transfer: unknown to the running process, nothing sent, not all sent, closed. */
  lemma TransferExitAnswers(env: Env, start: Ucm, ops: seq<Op>, id: Text)
    requires start.sessions == map[] && start.trace == [] && MetaFile(env, id) !in start.files
    requires SafeId(id) && SafeScript(ops)
    ensures var u := Run(env, start, ops);
      var size, sent := Announced(u.trace, id), Flatten(Blocks(u.trace, id));
      var errc := TransferExit(u, id);
      && (errc == 1 <==> id !in u.sessions)
      && (errc == 5 <==> id in u.sessions && sent == [])
      && (errc == 19 <==> id in u.sessions && sent != [] && size != Some(|sent|))
      && (errc == 0 <==> id in u.sessions && sent != [] && size == Some(|sent|))
  {
    hide Run, SafeId, SafeScript, Announced, Blocks, Flatten, MetaFile, PackageFile, ParseSession;
    AnnouncedInvariant(env, start, ops, id);
  }

  /** Starting a transfer: it is refused for want of space or if its file cannot be opened, and only in the
      second case is the id used up. Otherwise blocks of 4096 bytes are asked for. */
  lemma TransferStartAnswers(env: Env, u: Ucm, size: Word64, available: Option<nat>, openable: bool)
    ensures var r := TransferStart(env, u, size, available, openable);
      var room := available.None? || size <= available.value;
      && (r.errc == 0 <==> room && openable) && (r.errc == 4 <==> !(room && openable))
      && (!room ==> r.ucm == u)
      && (room && !openable ==> r.ucm == u.(nextId := u.nextId + 1))
      && (r.errc == 0 ==>
            && r.blockSize == 4096 && r.id == Decimal(u.nextId)
            && r.ucm.nextId == u.nextId + 1 && r.ucm.trace == u.trace + [Opened(r.id, size)])
      && (r.errc != 0 ==> r.blockSize == 0 && r.id == [])
  {
    hide Decimal, MetaFile, PackageFile, SessionBytes;
  }

  /** Deleting a transfer the running process knows of removes session and files, and no other; then no block
      is taken for the id any more. */
  lemma DeleteAnswers(env: Env, u: Ucm, id: Text, block: seq<Byte>, counter: Word64, openable: bool)
    ensures var r := DeleteTransfer(env, u, id);
      && (r.errc == 0 <==> id in u.sessions) && (r.errc == 1 <==> id !in u.sessions)
      && (r.errc == 1 ==> r.ucm == u)
      && (r.errc == 0 ==>
            && id !in r.ucm.sessions && PackageFile(env, id) !in r.ucm.files && MetaFile(env, id) !in r.ucm.files
            && (forall x :: x in u.sessions && x != id ==> x in r.ucm.sessions && r.ucm.sessions[x] == u.sessions[x])
            && (forall p :: p in u.files && p !in {PackageFile(env, id), MetaFile(env, id)} ==>
                  p in r.ucm.files && r.ucm.files[p] == u.files[p])
            && TransferExit(r.ucm, id) == 1
            && TransferData(env, r.ucm, id, block, counter, openable).errc == 1)
  {
    hide MetaFile, PackageFile, ParseSession;
  }

  // Processing.

  /** The transfer's file is there and holds a package with this manifest and payload. */
  ghost predicate Brings(env: Env, u: Ucm, id: Text, m: P.Manifest, payload: seq<Byte>) {
    && id in u.sessions && PackageFile(env, id) in u.files
    && P.Unpack(u.files[PackageFile(env, id)]) == Some(P.Contents(m, payload))
  }

  /** Main result: a package is processed with success exactly when its file is there and unpacks, its
      signature is the payload's, its version is a new one, every single dependency is the installed version,
      the digest can be computed and the manager takes the image. */
  lemma ProcessExact(env: Env, u: Ucm, id: Text, current: Text, accepted: bool)
    ensures ProcessSwPackage(env, u, id, current, accepted).errc == 0 <==>
      exists m, payload :: Brings(env, u, id, m, payload)
        && m.signature == env.hmac(payload) && m.version != current
        && (forall i :: 0 <= i < |m.dependencies| ==> m.dependencies[i] == current)
        && env.digest(payload) != [] && accepted
  {
    hide P.Unpack, PackageFile, MetaFile, ImageFile, Drop;
    var r := ProcessSwPackage(env, u, id, current, accepted);
    if r.errc == 0 {
      var c := P.Unpack(u.files[PackageFile(env, id)]).value;
      assert Brings(env, u, id, c.manifest, c.payload);
      forall i | 0 <= i < |c.manifest.dependencies| ensures c.manifest.dependencies[i] == current {
        assert c.manifest.dependencies[i] in c.manifest.dependencies;
      }
    }
  }

  /** Each refusal has its code. The checks come in the order of the clauses: the first that fails decides. */
  lemma ProcessRefusals(env: Env, u: Ucm, id: Text, current: Text, accepted: bool)
    ensures var errc := ProcessSwPackage(env, u, id, current, accepted).errc;
      && (errc == 1 <==> id !in u.sessions)
      && (errc == 2 <==> id in u.sessions && forall m, payload :: !Brings(env, u, id, m, payload))
      && (forall m, payload :: Brings(env, u, id, m, payload) ==>
            if m.signature != env.hmac(payload) then errc == 3
            else if m.version == current then errc == 11
            else if exists i :: 0 <= i < |m.dependencies| && m.dependencies[i] != current then errc == 12
            else if env.digest(payload) == [] then errc == 4
            else errc == if accepted then 0 else 6)
  {
    hide P.Unpack, PackageFile, MetaFile, ImageFile, Drop;
    if id in u.sessions && PackageFile(env, id) in u.files {
      var c := P.Unpack(u.files[PackageFile(env, id)]);
      if c.Some? {
        assert Brings(env, u, id, c.value.manifest, c.value.payload);
        SomeOther(c.value.manifest.dependencies, current);
      }
    }
  }

  lemma SomeOther(deps: seq<Text>, current: Text)
    ensures (exists d :: d in deps && d != current) <==> exists i :: 0 <= i < |deps| && deps[i] != current
  {
    if i :| 0 <= i < |deps| && deps[i] != current {
      assert deps[i] in deps;
    }
  }

  /** What processing leaves. A success hands over the payload as it was signed, under the path of the image
      file that holds it, and the transfer is gone; a refusal hands over nothing and keeps the transfer. */
  lemma ProcessLeaves(env: Env, u: Ucm, id: Text, current: Text, accepted: bool, m: P.Manifest, payload: seq<Byte>)
    requires Brings(env, u, id, m, payload) && SafeId(id)
    ensures var r := ProcessSwPackage(env, u, id, current, accepted);
      var path := env.transferDir + Ascii("/") + id + Ascii(".zip") + Ascii(".img");
      && (r.errc == 0 ==>
            && r.ucm.handed == u.handed + [Handover(path, payload, env.digest(payload), m.version)]
            && FileOf(env, path) in r.ucm.files && r.ucm.files[FileOf(env, path)] == payload
            && id !in r.ucm.sessions && PackageFile(env, id) !in r.ucm.files && MetaFile(env, id) !in r.ucm.files)
      && (r.errc in {4, 6} ==> r.ucm == u.(files := u.files[FileOf(env, path) := payload]))
      && (r.errc !in {0, 4, 6} ==> r.ucm == u)
  {
    hide P.Unpack, SafeId, Apart, FileOf;
    SafeIdsApart(env, id, id);
  }

  // What is handed over, over every run.

  /** The call has a completely transferred package processed, and this comes of it: the payload is signed,
      it is of a version that is not the one installed at that call, everything it depends on is, and the
      manager takes it. */
  ghost predicate Hands(env: Env, u: Ucm, op: Op, h: Handover) {
    && op.Process? && op.accepted && op.id in u.sessions && CutFrom(env, Blocks(u.trace, op.id), h)
    && h.digest != [] && h.version != op.current
    && var deps := P.Unpack(Flatten(Blocks(u.trace, op.id))).value.manifest.dependencies;
       forall i :: 0 <= i < |deps| ==> deps[i] == op.current
  }

  /** Call k of the run hands h over. */
  ghost predicate HandedBy(env: Env, start: Ucm, ops: seq<Op>, k: nat, h: Handover) {
    k < |ops| && Hands(env, Run(env, start, ops[..k]), ops[k], h)
  }

  lemma HandedByStays(env: Env, start: Ucm, ops: seq<Op>, k: nat, h: Handover)
    requires ops != [] && HandedBy(env, start, ops[..|ops| - 1], k, h)
    ensures HandedBy(env, start, ops, k, h)
  {
    hide Run, Hands;
    assert ops[..|ops| - 1][..k] == ops[..k];
  }

  /** One call hands over at most one image. */
  lemma HandsOver(env: Env, u: Ucm, op: Op)
    requires Subject(u, op).Some? ==> Sound(env, u, Subject(u, op).value)
    ensures var u' := Apply(env, u, op).ucm;
      u'.handed != u.handed ==> exists h :: u'.handed == u.handed + [h] && Hands(env, u, op, h)
  {
    hide Blocks, P.Unpack, Flatten, MetaFile, PackageFile, ImageFile, SessionBytes, ParseSession, Decimal;
    var u' := Apply(env, u, op).ucm;
    if u'.handed != u.handed {
      var c := P.Unpack(u.files[PackageFile(env, op.id)]);
      assert u.files[PackageFile(env, op.id)] == Flatten(Blocks(u.trace, op.id));
      var deps := c.value.manifest.dependencies;
      forall i | 0 <= i < |deps| ensures deps[i] == op.current { assert deps[i] in deps; }
      var h := Handover(ImagePath(env, op.id), c.value.payload, env.digest(c.value.payload), c.value.manifest.version);
      assert u'.handed == u.handed + [h] && Hands(env, u, op, h);
    }
  }

  /** Main result: over every run, each image handed to the manager was handed over by one call, of a
      transfer whose accepted blocks make up the package, signed, of another version than the one installed at
      that call and with all its dependencies equal to the installed one. */
  lemma {:induction false} OnlyCompatibleHandedOver(env: Env, start: Ucm, ops: seq<Op>)
    requires start.sessions == map[] && start.handed == [] && forall id :: MetaFile(env, id) !in start.files
    requires SafeScript(ops)
    ensures forall h :: h in Run(env, start, ops).handed ==> exists k: nat :: HandedBy(env, start, ops, k, h)
    decreases |ops|
  {
    hide Apply, Sound, Hands, MetaFile, SafeId, SafeOp;
    if ops != [] {
      var before, op := ops[..|ops| - 1], ops[|ops| - 1];
      var u, u' := Run(env, start, before), Run(env, start, ops);
      OnlyCompatibleHandedOver(env, start, before);
      if Subject(u, op).Some? {
        assert op in ops;
        SubjectSafe(u, op);
        SessionInvariant(env, start, before, Subject(u, op).value);
      }
      HandsOver(env, u, op);
      hide Run;
      forall h | h in u'.handed ensures exists k: nat :: HandedBy(env, start, ops, k, h) {
        if h in u.handed {
          var k: nat :| HandedBy(env, start, before, k, h);
          HandedByStays(env, start, ops, k, h);
        } else {
          assert HandedBy(env, start, ops, |before|, h);
        }
      }
    }
  }
}
