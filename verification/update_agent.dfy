/** The update agent: it wraps a downloaded payload into a signed package and pushes it, block by block,
    through the UCM service to the OTA manager. */
module UpdateAgent {
  import opened Bytes
  import F = FilePaths
  import opened UcmService
  import P = PackageManifest
  import M = UcmModel

  /** The manifest the agent signs; it depends on version 1.0.0 being installed. */
  function AgentManifest(env: M.Env, version: Text, payload: seq<Byte>): P.Manifest {
    P.Manifest(Ascii("platform"), version, [Ascii("1.0.0")], env.hmac(payload))
  }

  /** What the agent packs is unpacked as a package named platform, of the version asked for, depending on
      1.0.0 alone, and signed. */
  lemma AgentPackage(env: M.Env, version: Text, payload: seq<Byte>)
    requires |P.Blob(AgentManifest(env, version, payload))| < U32
    ensures P.Unpack(P.Package(AgentManifest(env, version, payload), payload)) == Some(P.Contents(
      P.Manifest([112, 108, 97, 116, 102, 111, 114, 109], version, [[49, 46, 48, 46, 48]], env.hmac(payload)),
      payload))
  {
    hide P.Unpack, P.Package, P.Blob;
    P.UnpackPackage(AgentManifest(env, version, payload), payload);
    assert Ascii("platform") == [112, 108, 97, 116, 102, 111, 114, 109] && Ascii("1.0.0") == [49, 46, 48, 46, 48];
  }

  /** The trace of sending these blocks with counters from, from + 1 and so on. */
  function Sent(id: Text, blocks: seq<seq<Byte>>): seq<M.Event> {
    seq(|blocks|, i requires 0 <= i < |blocks| => M.Block(id, (i + 1) % U64, blocks[i]))
  }

  /** The service once a transfer of pkg has been started as id and these blocks have been accepted. */
  ghost function Sending(env: M.Env, u: M.Ucm, id: Text, pkg: seq<Byte>, blocks: seq<seq<Byte>>): M.Ucm {
    var s := M.Session(|pkg|, |Flatten(blocks)|, (|blocks| + 1) % U64);
    M.Ucm(u.sessions[id := s], u.nextId,
          u.files[M.PackageFile(env, id) := Flatten(blocks)][M.MetaFile(env, id) := M.SessionBytes(s)],
          u.handed, u.trace + Sent(id, blocks))
  }

  lemma SentSnoc(id: Text, blocks: seq<seq<Byte>>, block: seq<Byte>, trace: seq<M.Event>)
    ensures trace + Sent(id, blocks) + [M.Block(id, (|blocks| + 1) % U64, block)] == trace + Sent(id, blocks + [block])
  {
    assert Sent(id, blocks + [block]) == Sent(id, blocks) + [M.Block(id, (|blocks| + 1) % U64, block)];
  }

  /** The two files of a transfer after one more block. */
  lemma FilesAfter(env: M.Env, files: map<F.Path, seq<Byte>>, id: Text, pkg: seq<Byte>, meta: seq<Byte>,
                   block: seq<Byte>, meta': seq<Byte>)
    requires M.Own(env, id)
    ensures var pp, mp := M.PackageFile(env, id), M.MetaFile(env, id);
      M.Append(files[pp := pkg][mp := meta], pp, block)[mp := meta'] == files[pp := pkg + block][mp := meta']
  {
    hide M.PackageFile, M.MetaFile, M.ImageFile;
  }

  /** One more block of the package is accepted. */
  lemma SendBlock(env: M.Env, u: M.Ucm, id: Text, pkg: seq<Byte>, blocks: seq<seq<Byte>>, block: seq<Byte>,
                  counter: M.Word64)
    requires counter == (|blocks| + 1) % U64 && M.SafeId(id)
    requires |Flatten(blocks)| + |block| <= |pkg|
    ensures M.TransferData(env, Sending(env, u, id, pkg, blocks), id, block, counter, true)
         == M.Done(Sending(env, u, id, pkg, blocks + [block]), M.SUCCESS)
  {
    hide M.SessionBytes, M.MetaFile, M.PackageFile, Sent, M.Load, Flatten, M.Append, M.SafeId, M.Own, M.Apart;
    M.SafeIdsApart(env, id, id);
    FlattenSnoc(blocks, block);
    SentSnoc(id, blocks, block, u.trace);
    var v := Sending(env, u, id, pkg, blocks);
    var w := Sending(env, u, id, pkg, blocks + [block]);
    FilesAfter(env, u.files, id, Flatten(blocks), M.SessionBytes(v.sessions[id]), block,
               M.SessionBytes(w.sessions[id]));
    assert v.sessions[id := w.sessions[id]] == w.sessions;
    assert v.sessions[id := v.sessions[id]] == v.sessions;
  }

  /** The service just after a transfer of pkg was started: nothing sent yet. */
  lemma StartSending(env: M.Env, u: M.Ucm, size: M.Word64, pkg: seq<Byte>, available: Option<nat>)
    requires size == |pkg| && (available.Some? ==> size <= available.value)
    ensures var id := M.Decimal(u.nextId);
      var v := u.(nextId := u.nextId + 1, trace := u.trace + [M.Opened(id, size)]);
      M.TransferStart(env, u, size, available, true)
        == M.Started(Sending(env, v, id, pkg, []), M.SUCCESS, id, M.BLOCK_SIZE)
  {
    hide M.SessionBytes, M.MetaFile, M.PackageFile, M.Decimal;
    var id := M.Decimal(u.nextId);
    assert u.trace + [M.Opened(id, size)] + Sent(id, []) == u.trace + [M.Opened(id, size)];
  }

  /** What the conditions of an installation amount to for a package the agent built. */
  predicate Installable(env: M.Env, payload: seq<Byte>, version: Text, current: Text) {
    current == Ascii("1.0.0") && version != current && env.digest(payload) != []
  }

  /** Processing a completely sent package of the agent's. */
  lemma ProcessSent(env: M.Env, u: M.Ucm, id: Text, payload: seq<Byte>, version: Text, blocks: seq<seq<Byte>>,
                    current: Text, accepted: bool)
    requires |P.Blob(AgentManifest(env, version, payload))| < U32
    requires Flatten(blocks) == P.Package(AgentManifest(env, version, payload), payload) && M.SafeId(id)
    ensures var pkg := Flatten(blocks);
      var s := Sending(env, u, id, pkg, blocks);
      var r := M.ProcessSwPackage(env, s, id, current, accepted);
      && M.TransferExit(s, id) == M.SUCCESS
      && (r.errc == M.SUCCESS <==> Installable(env, payload, version, current) && accepted)
      && (r.errc == M.SUCCESS ==>
            && r.ucm.handed == u.handed + [M.Handover(M.ImagePath(env, id), payload, env.digest(payload), version)]
            && M.ImageFile(env, id) in r.ucm.files && r.ucm.files[M.ImageFile(env, id)] == payload
            && r.ucm.trace == u.trace + Sent(id, blocks) + [M.Dropped(id)])
  {
    hide M.SessionBytes, M.MetaFile, M.PackageFile, M.ImageFile, M.ImagePath, M.SafeId, M.Apart, Sent, P.Blob, P.Unpack,
      P.Package, Flatten, Le32;
    var m := AgentManifest(env, version, payload);
    M.SafeIdsApart(env, id, id);
    P.UnpackPackage(m, payload);
    PackageNotEmpty(m, payload);
    assert m.dependencies[0] in m.dependencies;
    assert M.ContentsVerdict(env, Some(P.Contents(m, payload)), current) == M.SUCCESS
      <==> version != current && current == Ascii("1.0.0");
    hide M.ContentsVerdict, AgentManifest, Ascii;
  }

  lemma PackageNotEmpty(m: P.Manifest, payload: seq<Byte>)
    ensures |P.Package(m, payload)| > 0
  {
    hide P.Blob;
  }

  /** The block loop over a transfer that has just been started; blocks is what it sent. No block is
      refused, all but the last are full, and together they are the package. */
  method SendBlocks(svc: UcmService, id: Text, pkg: seq<Byte>, blockSize: nat, ghost v: M.Ucm)
    returns (errc: nat, ghost blocks: seq<seq<Byte>>)
    requires blockSize == M.BLOCK_SIZE && M.SafeId(id)
    requires svc.Model() == Sending(svc.env, v, id, pkg, [])
    modifies svc
    ensures errc == M.SUCCESS && Flatten(blocks) == pkg
    ensures svc.Model() == Sending(svc.env, v, id, pkg, blocks)
    ensures forall i :: 0 <= i < |blocks| ==> 0 < |blocks[i]| <= M.BLOCK_SIZE
    ensures forall i :: 0 <= i < |blocks| - 1 ==> |blocks[i]| == M.BLOCK_SIZE
  {
    hide Flatten, M.TransferData, Sending, M.SafeId;
    blocks, errc := [], M.SUCCESS;
    var offset, counter := 0, 1;
    assert Flatten([]) == pkg[..0] by { FlattenEmpty(); }
    while offset < |pkg|
      invariant 0 <= offset <= |pkg| && counter == (|blocks| + 1) % U64 && errc == M.SUCCESS
      invariant Flatten(blocks) == pkg[..offset]
      invariant svc.Model() == Sending(svc.env, v, id, pkg, blocks)
      invariant offset < |pkg| ==> forall i :: 0 <= i < |blocks| ==> |blocks[i]| == M.BLOCK_SIZE
      invariant forall i :: 0 <= i < |blocks| ==> 0 < |blocks[i]| <= M.BLOCK_SIZE
      invariant forall i :: 0 <= i < |blocks| - 1 ==> |blocks[i]| == M.BLOCK_SIZE
    {
      var n := Min(blockSize, |pkg| - offset);
      var chunk := pkg[offset..offset + n];
      SendBlock(svc.env, v, id, pkg, blocks, chunk, counter);
      errc := svc.TransferData(id, chunk, counter, true);
      if errc != M.SUCCESS {
        return;
      }
      FlattenSnoc(blocks, chunk);
      blocks := blocks + [chunk];
      assert pkg[..offset] + chunk == pkg[..offset + n];
      offset := offset + n;
      counter := (counter + 1) % U64;
    }
    assert pkg[..offset] == pkg;
  }

  /** The whole client sequence. download is the payload if the download succeeded; available is the free
      space if it could be determined; current is the installed version; accepted says whether the OTA
      manager takes the image. The update succeeds exactly when nothing stands in its way; then the
      manager holds the payload byte for byte, and the accepted blocks, counted from one, add up to the
      package. The blocks are what the loop sent. */
  method Update(svc: UcmService, download: Option<seq<Byte>>, version: Text, available: Option<nat>,
                current: Text, accepted: bool) returns (ok: bool, ghost blocks: seq<seq<Byte>>)
    requires download.Some? ==>
      var m := AgentManifest(svc.env, version, download.value);
      |P.Blob(m)| < U32 && |P.Package(m, download.value)| < U64
    modifies svc
    ensures ok <==>
      && download.Some?
      && (available.Some? ==>
            |P.Package(AgentManifest(svc.env, version, download.value), download.value)| <= available.value)
      && Installable(svc.env, download.value, version, current)
      && accepted
    ensures ok ==>
      var env, id, payload := svc.env, M.Decimal(old(svc.nextId)), download.value;
      var pkg := P.Package(AgentManifest(env, version, payload), payload);
      && svc.handed == old(svc.handed) + [M.Handover(M.ImagePath(env, id), payload, env.digest(payload), version)]
      && M.ImageFile(env, id) in svc.files && svc.files[M.ImageFile(env, id)] == payload
      && svc.trace == old(svc.trace) + [M.Opened(id, |pkg|)] + Sent(id, blocks) + [M.Dropped(id)]
      && Flatten(blocks) == pkg
      && (forall i :: 0 <= i < |blocks| ==> 0 < |blocks[i]| <= M.BLOCK_SIZE)
      && (forall i :: 0 <= i < |blocks| - 1 ==> |blocks[i]| == M.BLOCK_SIZE)
  {
    hide M.SessionBytes, M.MetaFile, M.PackageFile, M.ImageFile, M.ImagePath, M.SafeId, M.Decimal, P.Blob,
      P.Package, Sent, Flatten, AgentManifest, Installable, M.TransferStart, M.ProcessSwPackage,
      M.TransferExit, Sending;
    blocks := [];
    M.IssuedIdSafe(svc.nextId);
    if download.None? {
      return false, blocks;
    }
    var payload := download.value;
    var manifest := AgentManifest(svc.env, version, payload);
    var pkg := P.BuildPackage(manifest, payload);
    ghost var u := svc.Model();
    if available.Some? && |pkg| > available.value {
      StartRefused(svc.env, u, |pkg|, available);
    } else {
      StartSending(svc.env, u, |pkg|, pkg, available);
    }
    var errc, id, blockSize := svc.TransferStart(|pkg|, available, true);
    if errc != M.SUCCESS {
      return false, blocks;
    }
    ghost var v := u.(nextId := u.nextId + 1, trace := u.trace + [M.Opened(id, |pkg|)]);

    errc, blocks := SendBlocks(svc, id, pkg, blockSize, v);
    if errc != M.SUCCESS {
      return false, blocks;
    }
    ProcessSent(svc.env, v, id, payload, version, blocks, current, accepted);
    errc := svc.TransferExit(id);
    if errc != M.SUCCESS {
      return false, blocks;
    }
    errc := svc.ProcessSwPackage(id, current, accepted);
    if errc != M.SUCCESS {
      return false, blocks;
    }
    return true, blocks;
  }

  lemma FlattenEmpty()
    ensures Flatten([]) == []
  {
  }

  lemma StartRefused(env: M.Env, u: M.Ucm, size: M.Word64, available: Option<nat>)
    requires available.Some? && size > available.value
    ensures M.TransferStart(env, u, size, available, true).errc == M.INSUFFICIENT_MEMORY
  {
  }
}
