/** The target-side UCM service, proved to do what the model says, call by call. */
module UcmService {
  import opened Bytes
  import F = FilePaths
  import P = PackageManifest
  import M = UcmModel

  class UcmService {
    const env: M.Env
    var sessions: map<Text, M.Session>
    var nextId: nat
    var files: map<F.Path, seq<Byte>>  // the transfer directory
    var handed: seq<M.Handover>  // what the OTA manager has accepted
    ghost var trace: seq<M.Event>

    ghost function Model(): M.Ucm
      reads this
    {
      M.Ucm(sessions, nextId, files, handed, trace)
    }

    constructor (env: M.Env, files: map<F.Path, seq<Byte>>)
      ensures this.env == env && Model() == M.Ucm(map[], 1, files, [], [])
    {
      this.env := env;
      sessions, nextId := map[], 1;
      this.files, handed, trace := files, [], [];
    }

    method SaveSession(id: Text, s: M.Session)
      modifies this`files
      ensures files == old(files)[M.MetaFile(env, id) := M.SessionBytes(s)]
    {
      var image := Le64(s.expectedBytes);
      image := image + Le64(s.receivedBytes);
      image := image + Le64(s.expectedBlock);
      files := files[M.MetaFile(env, id) := image];
    }

    method LoadSession(id: Text) returns (s: Option<M.Session>)
      ensures s == M.Load(env, files, id)
    {
      if M.MetaFile(env, id) !in files {
        return None;
      }
      var image := files[M.MetaFile(env, id)];
      if |image| < 24 {
        return None;
      }
      return Some(M.Session(FromLe64(image[..8]), FromLe64(image[8..16]), FromLe64(image[16..24])));
    }

    method RemoveSessionFiles(id: Text)
      modifies this`files
      ensures files == M.WithoutFiles(env, old(files), id)
    {
      files := map p | p in files && p != M.PackageFile(env, id) :: files[p];
      files := map p | p in files && p != M.MetaFile(env, id) :: files[p];
    }

    method TransferStart(size: M.Word64, available: Option<nat>, openable: bool)
      returns (errc: nat, id: Text, blockSize: nat)
      modifies this
      ensures M.Started(Model(), errc, id, blockSize) == M.TransferStart(env, old(Model()), size, available, openable)
    {
      hide M.SessionBytes, M.MetaFile, M.PackageFile, M.Decimal;
      if available.Some? && size > available.value {
        return M.INSUFFICIENT_MEMORY, [], 0;
      }
      id := M.Decimal(nextId);
      nextId := nextId + 1;
      if !openable {
        return M.INSUFFICIENT_MEMORY, [], 0;
      }
      files := files[M.PackageFile(env, id) := []];
      var session := M.Session(size, 0, 1);
      sessions := sessions[id := session];
      SaveSession(id, session);
      trace := trace + [M.Opened(id, size)];
      return M.SUCCESS, id, M.BLOCK_SIZE;
    }

    method TransferData(id: Text, block: seq<Byte>, counter: M.Word64, openable: bool) returns (errc: nat)
      modifies this
      ensures M.Done(Model(), errc) == M.TransferData(env, old(Model()), id, block, counter, openable)
    {
      hide M.SessionBytes, M.MetaFile, M.PackageFile, M.Load;
      if id !in sessions {
        var resumed := LoadSession(id);
        if resumed.None? {
          return M.INVALID_TRANSFER_ID;
        }
        sessions := sessions[id := resumed.value];
      }
      var session := sessions[id];
      assert sessions == old(sessions)[id := session];
      if counter != session.expectedBlock {
        return M.INCORRECT_BLOCK;
      }
      if session.receivedBytes + |block| > session.expectedBytes {
        return M.INCORRECT_SIZE;
      }
      if !openable {
        return M.INSUFFICIENT_MEMORY;
      }
      var path := M.PackageFile(env, id);
      if path in files {
        files := files[path := files[path] + block];
      } else {
        files := files[path := [] + block];
      }
      session := session.(expectedBlock := (session.expectedBlock + 1) % U64,
                          receivedBytes := session.receivedBytes + |block|);
      sessions := sessions[id := session];
      SaveSession(id, session);
      trace := trace + [M.Block(id, counter, block)];
      return M.SUCCESS;
    }

    method TransferExit(id: Text) returns (errc: nat)
      ensures errc == M.TransferExit(Model(), id)
    {
      if id !in sessions {
        return M.INVALID_TRANSFER_ID;
      }
      if sessions[id].receivedBytes == 0 {
        return M.OPERATION_NOT_PERMITTED;
      }
      if sessions[id].receivedBytes != sessions[id].expectedBytes {
        return M.INSUFFICIENT_DATA;
      }
      return M.SUCCESS;
    }

    method Drop(id: Text)
      modifies this
      ensures Model() == M.Drop(env, old(Model()), id)
    {
      hide M.WithoutFiles;
      sessions := map x | x in sessions && x != id :: sessions[x];
      RemoveSessionFiles(id);
      trace := trace + [M.Dropped(id)];
    }

    method DeleteTransfer(id: Text) returns (errc: nat)
      modifies this
      ensures M.Done(Model(), errc) == M.DeleteTransfer(env, old(Model()), id)
    {
      if id !in sessions {
        return M.INVALID_TRANSFER_ID;
      }
      Drop(id);
      return M.SUCCESS;
    }

    /** The checks on an unpacked package, in the order the service makes them. */
    method CheckContents(c: P.Contents, current: Text) returns (errc: nat)
      ensures errc == M.ContentsVerdict(env, Some(c), current)
      ensures errc == 0 <==>
        && c.manifest.signature == env.hmac(c.payload) && c.manifest.version != current
        && forall i :: 0 <= i < |c.manifest.dependencies| ==> c.manifest.dependencies[i] == current
    {
      if c.manifest.signature != env.hmac(c.payload) {
        return M.AUTHENTICATION_FAILED;
      }
      if c.manifest.version == current {
        return M.INCOMPATIBLE_PACKAGE_VERSION;
      }
      for i := 0 to |c.manifest.dependencies|
        invariant forall j :: 0 <= j < i ==> c.manifest.dependencies[j] == current
      {
        if c.manifest.dependencies[i] != current {
          assert c.manifest.dependencies[i] in c.manifest.dependencies;
          return M.MISSING_DEPENDENCIES;
        }
      }
      return M.SUCCESS;
    }

    method ProcessSwPackage(id: Text, current: Text, accepted: bool) returns (errc: nat)
      modifies this
      ensures M.Done(Model(), errc) == M.ProcessSwPackage(env, old(Model()), id, current, accepted)
    {
      hide M.MetaFile, M.PackageFile, M.ImageFile, M.ContentsVerdict, P.Unpack, M.Drop;
      if id !in sessions {
        return M.INVALID_TRANSFER_ID;
      }
      if M.PackageFile(env, id) !in files {
        return M.INVALID_PACKAGE_MANIFEST;
      }
      var ok, manifest, payload := P.UnpackInto(files[M.PackageFile(env, id)]);
      if !ok {
        errc := M.INVALID_PACKAGE_MANIFEST;
        assert M.ContentsVerdict(env, None, current) == errc by { Refused(current); }
        return;
      }
      errc := CheckContents(P.Contents(manifest, payload), current);
      if errc != M.SUCCESS {
        return;
      }
      files := files[M.ImageFile(env, id) := payload];
      var digest := env.digest(payload);
      if digest == [] {
        return M.INSUFFICIENT_MEMORY;
      }
      if !accepted {
        return M.SERVICE_BUSY;
      }
      handed := handed + [M.Handover(M.ImagePath(env, id), payload, digest, manifest.version)];
      Drop(id);
    }

    lemma Refused(current: Text)
      ensures M.ContentsVerdict(env, None, current) == M.INVALID_PACKAGE_MANIFEST
    {
    }

    method Restart()
      modifies this
      ensures Model() == M.Restart(old(Model()))
    {
      sessions, nextId := map[], 1;
    }
  }
}
