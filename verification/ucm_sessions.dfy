/** The session invariant over every run of UCM calls and restarts, and restart transparency. */
module UcmSessions {
  import opened Bytes
  import opened FilePaths
  import opened UcmModel
  import P = PackageManifest

  datatype Op =
    | Start(size: Word64, available: Option<nat>, openable: bool)
    | Data(id: Text, block: seq<Byte>, counter: Word64, openable: bool)
    | Exit(id: Text)
    | Delete(id: Text)
    | Process(id: Text, current: Text, accepted: bool)
    | Reboot

  function Apply(env: Env, u: Ucm, op: Op): Done {
    match op
    case Start(size, available, openable) =>
      var r := TransferStart(env, u, size, available, openable); Done(r.ucm, r.errc)
    case Data(id, block, counter, openable) => TransferData(env, u, id, block, counter, openable)
    case Exit(id) => Done(u, TransferExit(u, id))
    case Delete(id) => DeleteTransfer(env, u, id)
    case Process(id, current, accepted) => ProcessSwPackage(env, u, id, current, accepted)
    case Reboot => Done(Restart(u), SUCCESS)
  }

  function Run(env: Env, u: Ucm, ops: seq<Op>): Ucm {
    if ops == [] then u else Apply(env, Run(env, u, ops[..|ops| - 1]), ops[|ops| - 1]).ucm
  }

  /** The blocks accepted for an id since it was last issued. */
  function Blocks(trace: seq<Event>, id: Text): seq<seq<Byte>> {
    if trace == [] then [] else
    var before, e := Blocks(trace[..|trace| - 1], id), trace[|trace| - 1];
    if e.id != id then before else
    match e
    case Block(_, _, bytes) => before + [bytes]
    case _ => []
  }

  lemma BlocksAfter(trace: seq<Event>, e: Event, id: Text)
    ensures Blocks(trace + [e], id) == if e.id != id then Blocks(trace, id)
                                       else if e.Block? then Blocks(trace, id) + [e.bytes] else []
  {
    assert (trace + [e])[..|trace|] == trace;
  }

  // The invariant, one transfer id at a time.

  /** A session that describes its package: the file is exactly the accepted blocks, its length is what
      the session counts, no more than announced, and the next block is the one after the last. */
  ghost predicate Describes(s: Session, pkg: seq<Byte>, blocks: seq<seq<Byte>>) {
    && pkg == Flatten(blocks)
    && s.receivedBytes == |pkg|
    && s.receivedBytes <= s.expectedBytes < U64
    && s.expectedBlock == (1 + |blocks|) % U64
  }

  /** What holds of one id: its persisted session describes its package file, and the session in memory,
      if there is one, is the persisted one. */
  ghost predicate Sound(env: Env, u: Ucm, id: Text) {
    && (MetaFile(env, id) in u.files ==>
          && PackageFile(env, id) in u.files
          && Load(env, u.files, id).Some?
          && Describes(Load(env, u.files, id).value, u.files[PackageFile(env, id)], Blocks(u.trace, id)))
    && (id in u.sessions ==>
          MetaFile(env, id) in u.files && Load(env, u.files, id) == Some(u.sessions[id]))
  }

  /** The state u' agrees with u on the files and the accepted blocks of id. */
  ghost predicate Kept(env: Env, u: Ucm, u': Ucm, id: Text) {
    && (forall p :: p in {PackageFile(env, id), MetaFile(env, id)} ==>
          (p in u'.files <==> p in u.files) && (p in u.files ==> u'.files[p] == u.files[p]))
    && Blocks(u'.trace, id) == Blocks(u.trace, id)
  }

  /** The state u' agrees with u on everything that belongs to id. */
  ghost predicate Same(env: Env, u: Ucm, u': Ucm, id: Text) {
    && (id in u'.sessions <==> id in u.sessions)
    && (id in u.sessions ==> u'.sessions[id] == u.sessions[id])
    && Kept(env, u, u', id)
  }

  lemma SameSound(env: Env, u: Ucm, u': Ucm, id: Text)
    requires Sound(env, u, id) && Same(env, u, u', id)
    ensures Sound(env, u', id)
  {
    hide Describes, SessionBytes, ParseSession, MetaFile, PackageFile;
    assert PackageFile(env, id) in {PackageFile(env, id), MetaFile(env, id)};
    assert MetaFile(env, id) in {PackageFile(env, id), MetaFile(env, id)};
  }

  /** The id a call works on; a start works on the id it would issue. */
  function Subject(u: Ucm, op: Op): Option<Text> {
    match op
    case Start(_, _, _) => Some(Decimal(u.nextId))
    case Data(id, _, _, _) => Some(id)
    case Exit(id) => Some(id)
    case Delete(id) => Some(id)
    case Process(id, _, _) => Some(id)
    case Reboot => None
  }

  /** A call on one transfer leaves the session, files and accepted blocks of every transfer it shares no
      file with alone, whatever its outcome. */
  lemma OthersUntouched(env: Env, u: Ucm, op: Op, other: Text)
    requires op != Reboot && Apart(env, Subject(u, op).value, other)
    ensures Same(env, u, Apply(env, u, op).ucm, other)
  {
    hide Blocks, SessionBytes, ParseSession, Decimal, MetaFile, PackageFile, ImageFile, ContentsVerdict;
    var u' := Apply(env, u, op).ucm;
    if u'.trace != u.trace {
      BlocksAfter(u.trace, u'.trace[|u.trace|], other);
    }
  }

  /** Every call on a leaves b alone. */
  ghost predicate Isolated(env: Env, a: Text, b: Text) {
    forall u, op :: op != Reboot && Subject(u, op) == Some(a) ==> Same(env, u, Apply(env, u, op).ucm, b)
  }

  /** A file they share goes when a is deleted. */
  lemma SharedFileLost(env: Env, a: Text, b: Text, shared: Path)
    requires shared in {PackageFile(env, a), MetaFile(env, a)} && shared in {PackageFile(env, b), MetaFile(env, b)}
    ensures !Isolated(env, a, b)
  {
    hide PackageFile, MetaFile, ImageFile, Blocks;
    var u := Ucm(map[a := Session(0, 0, 1)], 1, map[shared := []], [], []);
    var op := Delete(a);
    assert Subject(u, op) == Some(a) && shared !in Apply(env, u, op).ucm.files;
    assert !Same(env, u, Apply(env, u, op).ucm, b);
  }

  /** The image of a is written over a file of b's. */
  lemma ImageWritten(env: Env, a: Text, b: Text)
    requires ImageFile(env, a) in {PackageFile(env, b), MetaFile(env, b)} && ImageFile(env, a) != PackageFile(env, a)
    requires |env.hmac([])| < U16
    ensures !Isolated(env, a, b)
  {
    hide PackageFile, MetaFile, ImageFile, Blocks, P.Unpack;
    var m := P.Manifest([], [], [], env.hmac([]));
    P.UnpackPackage(m, []);
    var u := Ucm(map[a := Session(0, 0, 1)], 1, map[PackageFile(env, a) := P.Package(m, [])], [], []);
    var op := Process(a, [0], false);
    assert ContentsVerdict(env, Some(P.Contents(m, [])), [0]) == SUCCESS;
    assert Subject(u, op) == Some(a) && ImageFile(env, a) in Apply(env, u, op).ucm.files;
    assert !Same(env, u, Apply(env, u, op).ucm, b);
  }

  /** Main result: calls on one transfer leave another alone, in every state and whatever their outcome,
      exactly when the two share no file. */
  lemma IsolationExact(env: Env, a: Text, b: Text)
    requires |env.hmac([])| < U16
    ensures Isolated(env, a, b) <==> Apart(env, a, b)
  {
    hide PackageFile, MetaFile, ImageFile, Apply;
    if Apart(env, a, b) {
      forall u, op | op != Reboot && Subject(u, op) == Some(a) ensures Same(env, u, Apply(env, u, op).ucm, b) {
        OthersUntouched(env, u, op, b);
      }
    } else if PackageFile(env, a) in {PackageFile(env, b), MetaFile(env, b)} {
      SharedFileLost(env, a, b, PackageFile(env, a));
    } else if MetaFile(env, a) in {PackageFile(env, b), MetaFile(env, b)} {
      SharedFileLost(env, a, b, MetaFile(env, a));
    } else {
      ImageWritten(env, a, b);
    }
  }

  /** Main result: two transfers under different ids without slash and NUL are isolated from each other. */
  lemma SafeIdsIsolated(env: Env, a: Text, b: Text)
    requires SafeId(a) && SafeId(b) && a != b
    ensures Isolated(env, a, b)
  {
    hide Apply, Apart, SafeId;
    SafeIdsApart(env, a, b);
    forall u, op | op != Reboot && Subject(u, op) == Some(a) ensures Same(env, u, Apply(env, u, op).ucm, b) {
      OthersUntouched(env, u, op, b);
    }
  }

  /** The ids a client names in a call are safe. */
  predicate SafeOp(op: Op) {
    match op
    case Data(id, _, _, _) => SafeId(id)
    case Exit(id) => SafeId(id)
    case Delete(id) => SafeId(id)
    case Process(id, _, _) => SafeId(id)
    case _ => true
  }

  predicate SafeScript(ops: seq<Op>) {
    forall op :: op in ops ==> SafeOp(op)
  }

  lemma SubjectSafe(u: Ucm, op: Op)
    requires SafeOp(op) && op != Reboot
    ensures SafeId(Subject(u, op).value)
  {
    hide SafeId, Decimal;
    IssuedIdSafe(u.nextId);
  }

  lemma StoreSound(env: Env, u: Ucm, id: Text, s: Session, blocks: seq<seq<Byte>>)
    requires PackageFile(env, id) in u.files && Blocks(u.trace, id) == blocks
    requires Describes(s, u.files[PackageFile(env, id)], blocks) && Own(env, id)
    ensures Sound(env, Store(env, u, id, s), id)
  {
    hide Blocks, Flatten, MetaFile, PackageFile, SessionBytes, ParseSession;
    SessionRoundTrip(s);
  }

  /** What a transfer call starts from. */
  lemma DataSoundFrom(env: Env, u: Ucm, id: Text)
    requires Sound(env, u, id)
    ensures var found := Resolve(env, u, id);
      found.Some? ==>
        && PackageFile(env, id) in u.files
        && Describes(found.value, u.files[PackageFile(env, id)], Blocks(u.trace, id))
        && Sound(env, u.(sessions := u.sessions[id := found.value]), id)
  {
    hide SessionBytes, ParseSession, MetaFile, PackageFile, Blocks, Flatten, Describes;
  }

  lemma DataSound(env: Env, u: Ucm, id: Text, block: seq<Byte>, counter: Word64, openable: bool)
    requires Sound(env, u, id) && Own(env, id)
    ensures Sound(env, TransferData(env, u, id, block, counter, openable).ucm, id)
  {
    hide SessionBytes, ParseSession, MetaFile, PackageFile, ImageFile, Flatten, Blocks, Load, Sound;
    DataSoundFrom(env, u, id);
    var found := Resolve(env, u, id);
    if found.Some? {
      var s := found.value;
      if BlockVerdict(s, block, counter, openable) == SUCCESS {
        var pkg, blocks := u.files[PackageFile(env, id)], Blocks(u.trace, id);
        FlattenSnoc(blocks, block);
        BlocksAfter(u.trace, Block(id, counter, block), id);
        var w := u.(sessions := u.sessions[id := s], files := Append(u.files, PackageFile(env, id), block),
                    trace := u.trace + [Block(id, counter, block)]);
        assert Describes(NextSession(s, block), pkg + block, blocks + [block]);
        StoreSound(env, w, id, NextSession(s, block), blocks + [block]);
      }
    }
  }

  lemma StartSound(env: Env, u: Ucm, size: Word64, available: Option<nat>, openable: bool)
    requires Sound(env, u, Decimal(u.nextId)) && Own(env, Decimal(u.nextId))
    ensures Sound(env, TransferStart(env, u, size, available, openable).ucm, Decimal(u.nextId))
  {
    hide SessionBytes, ParseSession, MetaFile, PackageFile, Blocks, Decimal;
    var id := Decimal(u.nextId);
    var r := TransferStart(env, u, size, available, openable);
    if r.errc == SUCCESS {
      var w := u.(nextId := u.nextId + 1, files := u.files[PackageFile(env, id) := []],
                  trace := u.trace + [Opened(id, size)]);
      BlocksAfter(u.trace, Opened(id, size), id);
      StoreSound(env, w, id, Session(size, 0, 1), []);
    } else {
      SameSound(env, u, r.ucm, id);
    }
  }

  lemma ProcessSound(env: Env, u: Ucm, id: Text, current: Text, accepted: bool)
    requires Sound(env, u, id) && Own(env, id)
    ensures Sound(env, ProcessSwPackage(env, u, id, current, accepted).ucm, id)
  {
    hide SessionBytes, ParseSession, MetaFile, PackageFile, ImageFile, Blocks, ContentsVerdict, Describes;
  }

  lemma ApplySound(env: Env, u: Ucm, op: Op, id: Text)
    requires Sound(env, u, id) && SafeId(id) && SafeOp(op)
    ensures Sound(env, Apply(env, u, op).ucm, id)
  {
    hide Sound, TransferStart, TransferData, ProcessSwPackage, Decimal, SafeId, Own, Apart;
    SafeIdsApart(env, id, id);
    if op != Reboot && Subject(u, op) != Some(id) {
      SubjectSafe(u, op);
      SafeIdsApart(env, Subject(u, op).value, id);
      OthersUntouched(env, u, op, id);
      SameSound(env, u, Apply(env, u, op).ucm, id);
    } else {
      match op
      case Start(size, available, openable) => StartSound(env, u, size, available, openable);
      case Data(_, block, counter, openable) => DataSound(env, u, id, block, counter, openable);
      case Exit(_) =>
      case Delete(_) => DropSound(env, u, id);
      case Process(_, current, accepted) => ProcessSound(env, u, id, current, accepted);
      case Reboot => RestartSound(env, u, id);
    }
  }

  lemma DropSound(env: Env, u: Ucm, id: Text)
    requires Sound(env, u, id)
    ensures Sound(env, DeleteTransfer(env, u, id).ucm, id)
  {
  }

  lemma RestartSound(env: Env, u: Ucm, id: Text)
    requires Sound(env, u, id)
    ensures Sound(env, Restart(u), id)
  {
  }

  lemma {:induction false} RunSound(env: Env, u: Ucm, ops: seq<Op>, id: Text)
    requires Sound(env, u, id) && SafeId(id) && SafeScript(ops)
    ensures Sound(env, Run(env, u, ops), id)
    decreases |ops|
  {
    hide Sound, Apply, SafeId, SafeOp;
    if ops != [] {
      RunSound(env, u, ops[..|ops| - 1], id);
      ApplySound(env, Run(env, u, ops[..|ops| - 1]), ops[|ops| - 1], id);
    }
  }

  /** Main result: over every run of calls and restarts that starts with no session persisted and names
      only safe ids, for every safe id the package file is the concatenation of the blocks accepted for it,
      the session counts exactly them and stays within the announced size, and memory and disk agree. */
  lemma SessionInvariant(env: Env, start: Ucm, ops: seq<Op>, id: Text)
    requires start.sessions == map[] && MetaFile(env, id) !in start.files
    requires SafeId(id) && SafeScript(ops)
    ensures Sound(env, Run(env, start, ops), id)
  {
    hide Run, SafeId, SafeScript;
    RunSound(env, start, ops, id);
  }

  /** A refused call changes nothing on disk but at most the image file of the id it names, and no accepted
      block; no safe transfer notices a refused call on a safe id. */
  lemma RefusedChangesNothing(env: Env, u: Ucm, op: Op, id: Text)
    requires Apply(env, u, op).errc != SUCCESS
    ensures var u' := Apply(env, u, op).ucm;
      && u'.trace == u.trace && u'.handed == u.handed
      && (|| u'.files == u.files
          || (op.Process? && u'.files == u.files[ImageFile(env, op.id) := u'.files[ImageFile(env, op.id)]]))
      && (Sound(env, u, id) && SafeId(id) && SafeOp(op) ==>
            Resolve(env, u', id) == Resolve(env, u, id) && Kept(env, u, u', id))
  {
    hide SessionBytes, ParseSession, MetaFile, PackageFile, ImageFile, Blocks, Describes, Decimal, ContentsVerdict,
      SafeId, Apart;
    if op.Process? && SafeId(id) && SafeOp(op) {
      SafeIdsApart(env, id, op.id);
      SafeIdsApart(env, op.id, id);
      hide Own;
      assert ImageFile(env, op.id) !in {PackageFile(env, id), MetaFile(env, id)} by { ImageElsewhere(env, op.id, id); }
    }
  }

  lemma ImageElsewhere(env: Env, a: Text, b: Text)
    requires SafeId(a) && SafeId(b)
    ensures ImageFile(env, a) !in {PackageFile(env, b), MetaFile(env, b)}
  {
    hide ImageFile, PackageFile, MetaFile, SafeId;
    SafeIdsApart(env, a, b);
  }

  /** A transfer can be closed exactly when its file holds all the announced bytes, and some. */
  lemma ExitExact(env: Env, u: Ucm, id: Text)
    requires Sound(env, u, id)
    ensures TransferExit(u, id) == SUCCESS <==>
      && id in u.sessions && PackageFile(env, id) in u.files
      && u.files[PackageFile(env, id)] != []
      && |u.files[PackageFile(env, id)]| == u.sessions[id].expectedBytes
  {
  }

  /** A block is accepted exactly when the transfer exists, the counter says it is the next block, it
      still fits the announced size and the file can be opened; then it is what the file gains. */
  lemma BlockAccepted(env: Env, u: Ucm, id: Text, block: seq<Byte>, counter: Word64, openable: bool)
    requires Sound(env, u, id) && SafeId(id)
    ensures var r := TransferData(env, u, id, block, counter, openable);
      && (r.errc == SUCCESS <==>
            && MetaFile(env, id) in u.files && openable
            && counter == (1 + |Blocks(u.trace, id)|) % U64
            && |Flatten(Blocks(u.trace, id)) + block| <= Load(env, u.files, id).value.expectedBytes)
      && (r.errc == SUCCESS ==>
            && PackageFile(env, id) in r.ucm.files
            && r.ucm.files[PackageFile(env, id)] == u.files[PackageFile(env, id)] + block)
  {
    hide SessionBytes, ParseSession, MetaFile, PackageFile, ImageFile, Blocks, Flatten, SafeId, Apart;
    SafeIdsApart(env, id, id);
  }

  // Other spellings of an id.

  /** Another id whose transfer would be kept in the same files. */
  predicate Alias(env: Env, alias: Text, id: Text) {
    alias != id && PackageFile(env, alias) == PackageFile(env, id) && MetaFile(env, alias) == MetaFile(env, id)
  }

  /** The id behind ./ is one, for every id and every file system. */
  lemma DotAlias(env: Env, id: Text)
    ensures Alias(env, [DOT, SLASH] + id, id)
  {
    hide FileAt, Ascii;
    Extensions();
    var alias, zip, meta := [DOT, SLASH] + id, Ascii(".zip"), Ascii(".meta");
    DotSlash(env.transferDir, env.elsewhere, id + zip);
    DotSlash(env.transferDir, env.elsewhere, id + meta);
    assert PackagePath(env, id) == env.transferDir + [SLASH] + (id + zip);
    assert MetaPath(env, id) == env.transferDir + [SLASH] + (id + meta);
    assert PackagePath(env, alias) == env.transferDir + [SLASH] + ([DOT, SLASH] + (id + zip));
    assert MetaPath(env, alias) == env.transferDir + [SLASH] + ([DOT, SLASH] + (id + meta));
    assert |alias| == |id| + 2;
  }

  /** The id behind a detour through the parent directory is one, where the directory's name leads back. */
  lemma ParentAlias(env: Env, base: Text, id: Text)
    requires SafeId(id) && SafeId(base) && !Special(base) && FollowsParent(env.transferDir, env.elsewhere, base)
    ensures Alias(env, [DOT, DOT] + [SLASH] + (base + [SLASH] + id), id)
  {
    hide FileAt, Ascii, FollowsParent, Special;
    Extensions();
    var alias := [DOT, DOT] + [SLASH] + (base + [SLASH] + id);
    var zip, meta := Ascii(".zip"), Ascii(".meta");
    assert !Special(id + zip) && !Special(id + meta) by { LongNames(id); }
    ParentSlash(env.transferDir, env.elsewhere, base, id + zip);
    ParentSlash(env.transferDir, env.elsewhere, base, id + meta);
    assert PackagePath(env, id) == env.transferDir + [SLASH] + (id + zip);
    assert MetaPath(env, id) == env.transferDir + [SLASH] + (id + meta);
    assert PackagePath(env, alias)
        == env.transferDir + [SLASH] + ([DOT, DOT] + [SLASH] + (base + [SLASH] + (id + zip)));
    assert MetaPath(env, alias)
        == env.transferDir + [SLASH] + ([DOT, DOT] + [SLASH] + (base + [SLASH] + (id + meta)));
    assert |alias| > |id|;
  }

  lemma LongNames(id: Text)
    ensures !Special(id + Ascii(".zip")) && !Special(id + Ascii(".meta"))
  {
  }

  /** Main result: without the condition on ids both results are false. Whatever transfer is open and
      waits for a block, that block is accepted under any alias of its id: the package grows while the
      session in memory stays, so that the transfer is neither left alone nor described by it, and it cannot
      be closed even when its file holds all the announced bytes. */
  lemma OtherSpelling(env: Env, u: Ucm, id: Text, alias: Text, block: seq<Byte>, counter: Word64)
    requires SafeId(id) && Sound(env, u, id) && id in u.sessions
    requires Alias(env, alias, id) && alias !in u.sessions
    requires counter == u.sessions[id].expectedBlock
    requires block != [] && u.sessions[id].receivedBytes + |block| <= u.sessions[id].expectedBytes
    ensures var r := TransferData(env, u, alias, block, counter, true);
      && r.errc == SUCCESS
      && PackageFile(env, id) in r.ucm.files
      && r.ucm.files[PackageFile(env, id)] == u.files[PackageFile(env, id)] + block
      && r.ucm.sessions[id] == u.sessions[id] && Blocks(r.ucm.trace, id) == Blocks(u.trace, id)
      && !Same(env, u, r.ucm, id) && !Sound(env, r.ucm, id)
      && TransferExit(r.ucm, id) != SUCCESS
  {
    hide SessionBytes, ParseSession, MetaFile, PackageFile, ImageFile, Blocks, Flatten, SafeId, Apart;
    SafeIdsApart(env, id, id);
    BlocksAfter(u.trace, Block(alias, counter, block), id);
    assert |u.files[PackageFile(env, id)] + block| > |u.files[PackageFile(env, id)]|;
    SessionRoundTrip(NextSession(u.sessions[id], block));
  }

  const EMPTY := Ucm(map[], 1, map[], [], [])

  lemma RunTwo(env: Env, u: Ucm, a: Op, b: Op)
    ensures Run(env, u, [a, b]) == Apply(env, Apply(env, u, a).ucm, b).ucm
  {
    hide Apply;
    assert [a, b][..1] == [a] && [a][..0] == [];
    assert Run(env, u, [a]) == Apply(env, u, a).ucm;
  }

  /** It takes two calls: the first transfer the service starts, and its first block sent to "./1". */
  lemma OtherSpellingReached(env: Env)
    ensures var u := Run(env, EMPTY, [Start(1, None, true), Data(Ascii("./1"), [0], 1, true)]);
      !Sound(env, u, Ascii("1"))
  {
    hide PackageFile, MetaFile, ImageFile, SessionBytes, ParseSession, Sound, TransferData, Blocks, Alias;
    var id := Ascii("1");
    RunTwo(env, EMPTY, Start(1, None, true), Data(Ascii("./1"), [0], 1, true));
    hide Run;
    assert Decimal(1) == id && [DOT, SLASH] + id == Ascii("./1");
    IssuedIdSafe(1);
    NothingYet(env, id);
    SafeIdsApart(env, id, id);
    StartSound(env, EMPTY, 1, None, true);
    DotAlias(env, id);
    OtherSpelling(env, TransferStart(env, EMPTY, 1, None, true).ucm, id, Ascii("./1"), [0], 1);
  }

  lemma NothingYet(env: Env, id: Text)
    ensures Sound(env, EMPTY, id)
  {
  }

  /** No call on a ever makes a transfer b unsound. */
  ghost predicate KeepsSound(env: Env, a: Text, b: Text) {
    forall u, op :: op != Reboot && Subject(u, op) == Some(a) && Sound(env, u, b) ==>
      Sound(env, Apply(env, u, op).ucm, b)
  }

  /** A sound state in which transfer b is open and empty, and a is open as well. */
  function BothOpen(env: Env, a: Text, b: Text, more: map<Path, seq<Byte>>): Ucm {
    var s := Session(0, 0, 1);
    Ucm(map[a := s, b := s], 1, more[PackageFile(env, b) := []][MetaFile(env, b) := SessionBytes(s)], [], [])
  }

  lemma BothOpenSound(env: Env, a: Text, b: Text, more: map<Path, seq<Byte>>)
    requires Own(env, b)
    ensures Sound(env, BothOpen(env, a, b, more), b)
  {
    hide PackageFile, MetaFile, ImageFile, SessionBytes, ParseSession;
    SessionRoundTrip(Session(0, 0, 1));
  }

  lemma DeleteUnsound(env: Env, a: Text, b: Text)
    requires a != b && Own(env, b)
    requires PackageFile(env, a) in {PackageFile(env, b), MetaFile(env, b)} ||
             MetaFile(env, a) in {PackageFile(env, b), MetaFile(env, b)}
    ensures !KeepsSound(env, a, b)
  {
    hide PackageFile, MetaFile, ImageFile, SessionBytes, ParseSession, Describes;
    var u, op := BothOpen(env, a, b, map[]), Delete(a);
    BothOpenSound(env, a, b, map[]);
    assert Subject(u, op) == Some(a) && !Sound(env, Apply(env, u, op).ucm, b);
  }

  lemma ImageUnsound(env: Env, a: Text, b: Text)
    requires a != b && Own(env, b) && |env.hmac([1])| < U16
    requires PackageFile(env, a) !in {PackageFile(env, b), MetaFile(env, b)}
    requires ImageFile(env, a) in {PackageFile(env, b), MetaFile(env, b)}
    ensures !KeepsSound(env, a, b)
  {
    hide PackageFile, MetaFile, ImageFile, SessionBytes, P.Unpack;
    var m := P.Manifest([], [], [], env.hmac([1]));
    P.UnpackPackage(m, [1]);
    var more := map[PackageFile(env, a) := P.Package(m, [1])];
    var u, op := BothOpen(env, a, b, more), Process(a, [0], false);
    BothOpenSound(env, a, b, more);
    assert ContentsVerdict(env, Some(P.Contents(m, [1])), [0]) == SUCCESS;
    var u' := Apply(env, u, op).ucm;
    assert u'.files[ImageFile(env, a)] == [1];
    assert Subject(u, op) == Some(a) && !Sound(env, u', b);
  }

  /** Main result: calls on one id keep another, safe one sound, in every state and whatever their outcome,
      exactly when they share no file. */
  lemma SoundExact(env: Env, a: Text, b: Text)
    requires a != b && SafeId(b) && |env.hmac([1])| < U16
    ensures KeepsSound(env, a, b) <==> Apart(env, a, b)
  {
    hide PackageFile, MetaFile, ImageFile, Apply, Sound, SafeId;
    SafeIdsApart(env, b, b);
    if Apart(env, a, b) {
      forall u, op | op != Reboot && Subject(u, op) == Some(a) && Sound(env, u, b)
        ensures Sound(env, Apply(env, u, op).ucm, b)
      {
        OthersUntouched(env, u, op, b);
        SameSound(env, u, Apply(env, u, op).ucm, b);
      }
    } else if ImageFile(env, a) in {PackageFile(env, b), MetaFile(env, b)} &&
              PackageFile(env, a) !in {PackageFile(env, b), MetaFile(env, b)} {
      ImageUnsound(env, a, b);
    } else {
      DeleteUnsound(env, a, b);
    }
  }

  // What reaches the installer.

  /** h is the signed payload of a package whose bytes are the blocks accepted for one transfer. */
  ghost predicate CutFrom(env: Env, blocks: seq<seq<Byte>>, h: Handover) {
    var c := P.Unpack(Flatten(blocks));
    && c.Some?
    && c.value.payload == h.image
    && c.value.manifest.version == h.version
    && c.value.manifest.signature == env.hmac(h.image)
    && h.digest == env.digest(h.image)
  }

  ghost predicate Authentic(env: Env, trace: seq<Event>, h: Handover) {
    exists id: Text, n: nat :: n <= |trace| && CutFrom(env, Blocks(trace[..n], id), h)
  }

  lemma AuthenticStays(env: Env, trace: seq<Event>, longer: seq<Event>, h: Handover)
    requires Authentic(env, trace, h) && trace <= longer
    ensures Authentic(env, longer, h)
  {
    hide CutFrom, Blocks;
    var id: Text, n: nat :| n <= |trace| && CutFrom(env, Blocks(trace[..n], id), h);
    assert longer[..n] == trace[..n];
  }

  /** One call hands over at most one image, and only an authentic one. */
  lemma HandoverAuthentic(env: Env, u: Ucm, op: Op)
    requires Subject(u, op).Some? ==> Sound(env, u, Subject(u, op).value)
    ensures var u' := Apply(env, u, op).ucm;
      && u.trace <= u'.trace
      && (u'.handed != u.handed ==>
            && op.Process? && Apply(env, u, op).errc == SUCCESS
            && |u'.handed| == |u.handed| + 1 && u'.handed[..|u.handed|] == u.handed
            && Authentic(env, u'.trace, u'.handed[|u.handed|]))
  {
    hide SessionBytes, ParseSession, MetaFile, PackageFile, ImageFile, Blocks, Decimal, P.Unpack, Flatten;
    var u' := Apply(env, u, op).ucm;
    if u'.handed != u.handed {
      var h := u'.handed[|u.handed|];
      assert u'.trace[..|u.trace|] == u.trace;
      assert CutFrom(env, Blocks(u'.trace[..|u.trace|], op.id), h);
    }
  }

  /** Main result: over every run, each image handed to the OTA manager is the payload of a package that
      was transferred block by block and whose manifest carries its version and its signature. */
  lemma {:induction false} OnlyAuthenticHandedOver(env: Env, start: Ucm, ops: seq<Op>)
    requires start.sessions == map[] && start.handed == [] && forall id :: MetaFile(env, id) !in start.files
    requires SafeScript(ops)
    ensures forall h :: h in Run(env, start, ops).handed ==> Authentic(env, Run(env, start, ops).trace, h)
    decreases |ops|
  {
    hide Apply, Sound, Authentic, MetaFile, SafeId, SafeOp;
    if ops != [] {
      var before, op := ops[..|ops| - 1], ops[|ops| - 1];
      var u := Run(env, start, before);
      OnlyAuthenticHandedOver(env, start, before);
      if Subject(u, op).Some? {
        assert op in ops;
        SubjectSafe(u, op);
        SessionInvariant(env, start, before, Subject(u, op).value);
      }
      HandoverAuthentic(env, u, op);
      var u' := Apply(env, u, op).ucm;
      forall h | h in u'.handed ensures Authentic(env, u'.trace, h) {
        if h in u.handed { AuthenticStays(env, u.trace, u'.trace, h); }
      }
    }
  }

  // Restart transparency.

  function WithoutReboots(ops: seq<Op>): seq<Op> {
    if ops == [] then []
    else WithoutReboots(ops[..|ops| - 1]) + if ops[|ops| - 1].Reboot? then [] else [ops[|ops| - 1]]
  }

  /** The answers to the transfer calls on one id. */
  function AnswersTo(env: Env, u: Ucm, ops: seq<Op>, id: Text): seq<nat> {
    if ops == [] then [] else
    var before, op := ops[..|ops| - 1], ops[|ops| - 1];
    AnswersTo(env, u, before, id) +
    if op.Data? && op.id == id then [Apply(env, Run(env, u, before), op).errc] else []
  }

  /** The call issues the id, deletes its transfer or has it processed. */
  predicate Ends(env: Env, u: Ucm, op: Op, id: Text) {
    (op.Start? || op.Delete? || op.Process?) && Subject(u, op) == Some(id) && Apply(env, u, op).errc == SUCCESS
  }

  /** No call of the run ends the transfer. */
  predicate LeftOpen(env: Env, u: Ucm, ops: seq<Op>, id: Text) {
    ops == [] ||
    var before, op := ops[..|ops| - 1], ops[|ops| - 1];
    LeftOpen(env, u, before, id) && !Ends(env, Run(env, u, before), op, id)
  }

  /** Two services that differ at most in which sessions they hold in memory. */
  ghost predicate SamePersisted(u: Ucm, v: Ucm) {
    u.files == v.files && u.trace == v.trace && u.handed == v.handed
  }

  /** A transfer call depends on the files of its own transfer alone, not on whether its session is in
      memory. */
  lemma DataFromDisk(env: Env, u: Ucm, v: Ucm, id: Text, block: seq<Byte>, counter: Word64, openable: bool)
    requires Sound(env, u, id) && Sound(env, v, id) && Kept(env, u, v, id) && Own(env, id)
    ensures var a := TransferData(env, u, id, block, counter, openable);
      var b := TransferData(env, v, id, block, counter, openable);
      && a.errc == b.errc && Kept(env, a.ucm, b.ucm, id)
      && (SamePersisted(u, v) ==> SamePersisted(a.ucm, b.ucm))
      && (id in a.ucm.sessions && id in b.ucm.sessions ==> a.ucm.sessions[id] == b.ucm.sessions[id])
  {
    hide SessionBytes, ParseSession, MetaFile, PackageFile, ImageFile, Blocks, Describes;
    assert PackageFile(env, id) in {PackageFile(env, id), MetaFile(env, id)};
    assert MetaFile(env, id) in {PackageFile(env, id), MetaFile(env, id)};
    BlocksAfter(u.trace, Block(id, counter, block), id);
    BlocksAfter(v.trace, Block(id, counter, block), id);
  }

  /** Any call that is no transfer call on id and does not end its transfer leaves its files alone. */
  lemma OtherwiseKept(env: Env, u: Ucm, op: Op, id: Text)
    requires Sound(env, u, id) && SafeId(id) && SafeOp(op)
    requires !(op.Data? && op.id == id) && !Ends(env, u, op, id)
    ensures Kept(env, u, Apply(env, u, op).ucm, id)
  {
    hide Sound, SafeId, SafeOp, Apart, Own, TransferStart, TransferData, DeleteTransfer, ProcessSwPackage, Decimal;
    if op != Reboot && Subject(u, op) != Some(id) {
      SubjectSafe(u, op);
      SafeIdsApart(env, Subject(u, op).value, id);
      OthersUntouched(env, u, op, id);
    } else if op.Start? || op.Delete? || op.Process? {
      RefusedChangesNothing(env, u, op, id);
    }
  }

  lemma KeptThrough(env: Env, u: Ucm, u': Ucm, v: Ucm, v': Ucm, id: Text)
    requires Kept(env, u, v, id) && Kept(env, u, u', id) && Kept(env, v, v', id)
    ensures Kept(env, u', v', id)
  {
    hide Blocks, PackageFile, MetaFile;
  }

  /** Main result: whatever other transfers do in between, new ones included, restarting the service
      anywhere changes no answer to a transfer call on an id, nor its files and accepted blocks, as long as
      its transfer is left open: neither issued again nor deleted nor processed, with the restarts or
      without them. */
  lemma {:induction false} RestartTransparent(env: Env, u: Ucm, ops: seq<Op>, id: Text)
    requires Sound(env, u, id) && SafeId(id) && SafeScript(ops)
    requires LeftOpen(env, u, ops, id) && LeftOpen(env, u, WithoutReboots(ops), id)
    ensures AnswersTo(env, u, ops, id) == AnswersTo(env, u, WithoutReboots(ops), id)
    ensures Kept(env, Run(env, u, ops), Run(env, u, WithoutReboots(ops)), id)
    ensures Sound(env, Run(env, u, ops), id) && Sound(env, Run(env, u, WithoutReboots(ops)), id)
    decreases |ops|
  {
    hide Sound, Kept, SafeId, SafeOp, Apply, Ends, Own, Apart;
    if ops == [] {
      KeptSelf(env, u, id);
    } else {
      var before, op := ops[..|ops| - 1], ops[|ops| - 1];
      var rest := WithoutReboots(before);
      assert op in ops;
      if op.Reboot? {
        assert WithoutReboots(ops) == rest;
      } else {
        assert WithoutReboots(ops) == rest + [op] && (rest + [op])[..|rest|] == rest;
      }
      RestartTransparent(env, u, before, id);
      TurnTransparent(env, Run(env, u, before), Run(env, u, rest), op, id);
    }
  }

  lemma KeptSelf(env: Env, u: Ucm, id: Text)
    ensures Kept(env, u, u, id)
  {
  }

  /** One call of the run, on the side with restarts and on the side without. */
  lemma TurnTransparent(env: Env, u: Ucm, v: Ucm, op: Op, id: Text)
    requires Sound(env, u, id) && Sound(env, v, id) && Kept(env, u, v, id) && SafeId(id) && SafeOp(op)
    requires !Ends(env, u, op, id) && (op.Reboot? || !Ends(env, v, op, id))
    ensures var u', v' := Apply(env, u, op).ucm, if op.Reboot? then v else Apply(env, v, op).ucm;
      && Sound(env, u', id) && Sound(env, v', id) && Kept(env, u', v', id)
      && (op.Data? && op.id == id ==> Apply(env, u, op).errc == Apply(env, v, op).errc)
  {
    hide Sound, Kept, SafeId, SafeOp, TransferData, Ends, Own, Apart;
    ApplySound(env, u, op, id);
    if !op.Reboot? { ApplySound(env, v, op, id); }
    if op.Data? && op.id == id {
      SafeIdsApart(env, id, id);
      DataFromDisk(env, u, v, id, op.block, op.counter, op.openable);
    } else {
      hide Apply;
      OtherwiseKept(env, u, op, id);
      KeptSelf(env, v, id);
      if !op.Reboot? { OtherwiseKept(env, v, op, id); }
      KeptThrough(env, u, Apply(env, u, op).ucm, v, if op.Reboot? then v else Apply(env, v, op).ucm, id);
    }
  }

  // Scripts of transfer calls alone.

  ghost predicate AllSound(env: Env, u: Ucm) {
    forall id :: SafeId(id) ==> Sound(env, u, id)
  }

  predicate TransferScript(ops: seq<Op>) {
    forall op :: op in ops ==> op.Data? || op.Reboot?
  }

  /** The answers to the transfer calls of a script, restarts left out. */
  function Answers(env: Env, u: Ucm, ops: seq<Op>): seq<nat> {
    if ops == [] then [] else
    var before, op := ops[..|ops| - 1], ops[|ops| - 1];
    Answers(env, u, before) + if op.Reboot? then [] else [Apply(env, Run(env, u, before), op).errc]
  }

  lemma RunAllSound(env: Env, u: Ucm, ops: seq<Op>)
    requires AllSound(env, u) && SafeScript(ops)
    ensures AllSound(env, Run(env, u, ops))
  {
    hide Sound, Run, SafeId, SafeScript;
    forall id | SafeId(id) ensures Sound(env, Run(env, u, ops), id) { RunSound(env, u, ops, id); }
  }

  lemma {:induction false} WithoutRebootsSafe(ops: seq<Op>)
    requires SafeScript(ops)
    ensures SafeScript(WithoutReboots(ops))
    decreases |ops|
  {
    hide SafeOp;
    if ops != [] {
      assert ops[|ops| - 1] in ops;
      WithoutRebootsSafe(ops[..|ops| - 1]);
    }
  }

  lemma {:induction false} ScriptLeavesOpen(env: Env, u: Ucm, ops: seq<Op>, id: Text)
    requires TransferScript(ops)
    ensures LeftOpen(env, u, ops, id) && TransferScript(WithoutReboots(ops))
    decreases |ops|
  {
    hide Apply;
    if ops != [] {
      assert ops[|ops| - 1] in ops;
      ScriptLeavesOpen(env, u, ops[..|ops| - 1], id);
    }
  }

  /** Its consequence for scripts of transfer calls and restarts alone: no answer at all, no file and no
      accepted block of any transfer changes. */
  lemma {:induction false} TransfersTransparent(env: Env, u: Ucm, ops: seq<Op>)
    requires AllSound(env, u) && TransferScript(ops) && SafeScript(ops)
    ensures Answers(env, u, ops) == Answers(env, u, WithoutReboots(ops))
    ensures SamePersisted(Run(env, u, ops), Run(env, u, WithoutReboots(ops)))
    ensures AllSound(env, Run(env, u, ops)) && AllSound(env, Run(env, u, WithoutReboots(ops)))
    decreases |ops|
  {
    hide Sound, TransferData, Kept, SafeId, LeftOpen, Own, Apart;
    RunAllSound(env, u, ops);
    WithoutRebootsSafe(ops);
    RunAllSound(env, u, WithoutReboots(ops));
    if ops != [] {
      var before, op := ops[..|ops| - 1], ops[|ops| - 1];
      assert op in ops;
      TransfersTransparent(env, u, before);
      if op.Data? {
        ScriptLeavesOpen(env, u, before, op.id);
        ScriptLeavesOpen(env, u, WithoutReboots(before), op.id);
        RestartTransparent(env, u, before, op.id);
        SafeIdsApart(env, op.id, op.id);
        DataFromDisk(env, Run(env, u, before), Run(env, u, WithoutReboots(before)), op.id, op.block, op.counter,
                     op.openable);
        assert WithoutReboots(ops)[..|WithoutReboots(ops)| - 1] == WithoutReboots(before);
      } else {
        assert WithoutReboots(ops) == WithoutReboots(before);
      }
    }
  }
}
