/** The UCM transfer sessions as a value: the session table, the files of the transfer directory and
    what each call does to them. Opening a file for writing may fail; writes themselves succeed. */
module UcmModel {
  import opened Bytes
  import opened FilePaths
  import P = PackageManifest

  type Word64 = x: int | 0 <= x < U64

  // Error codes, by their wire value.
  const SUCCESS: nat := 0
  const INVALID_TRANSFER_ID: nat := 1
  const INVALID_PACKAGE_MANIFEST: nat := 2
  const AUTHENTICATION_FAILED: nat := 3
  const INSUFFICIENT_MEMORY: nat := 4
  const OPERATION_NOT_PERMITTED: nat := 5
  const SERVICE_BUSY: nat := 6
  const INCOMPATIBLE_PACKAGE_VERSION: nat := 11
  const MISSING_DEPENDENCIES: nat := 12
  const INCORRECT_BLOCK: nat := 15
  const INCORRECT_SIZE: nat := 18
  const INSUFFICIENT_DATA: nat := 19

  const BLOCK_SIZE: nat := 4096

  /** The transfer directory, where the file system leads names that do not end in it, and the HMAC and the
      digest the service computes with. */
  datatype Env = Env(
    transferDir: Directory, elsewhere: Path -> Path, hmac: seq<Byte> -> Text, digest: seq<Byte> -> Text)

  datatype Session = Session(expectedBytes: nat, receivedBytes: nat, expectedBlock: nat)

  /** An image handed to the OTA manager. */
  datatype Handover = Handover(path: Text, image: seq<Byte>, digest: Text, version: Text)

  /** The accepted steps of transfers. */
  datatype Event =
    | Opened(id: Text, size: Word64)
    | Block(id: Text, counter: Word64, bytes: seq<Byte>)
    | Dropped(id: Text)

  datatype Ucm = Ucm(
    sessions: map<Text, Session>, nextId: nat, files: map<Path, seq<Byte>>,
    handed: seq<Handover>, trace: seq<Event>)

  // Names and paths.

  function Decimal(n: nat): (t: Text)
    ensures |t| > 0
  {
    if n < 10 then [48 + n] else Decimal(n / 10) + [48 + n % 10]
  }

  function PackagePath(env: Env, id: Text): Text {
    env.transferDir + Ascii("/") + id + Ascii(".zip")
  }

  function MetaPath(env: Env, id: Text): Text {
    env.transferDir + Ascii("/") + id + Ascii(".meta")
  }

  function ImagePath(env: Env, id: Text): Text {
    PackagePath(env, id) + Ascii(".img")
  }

  /** The file a path string opens. */
  function FileOf(env: Env, path: Text): Path {
    FileAt(env.transferDir, env.elsewhere, path)
  }

  function PackageFile(env: Env, id: Text): Path {
    FileOf(env, PackagePath(env, id))
  }

  function MetaFile(env: Env, id: Text): Path {
    FileOf(env, MetaPath(env, id))
  }

  function ImageFile(env: Env, id: Text): Path {
    FileOf(env, ImagePath(env, id))
  }

  /** Opening the path of an image opens its file. */
  lemma ImageOpens(env: Env, id: Text)
    ensures FileOf(env, ImagePath(env, id)) == ImageFile(env, id)
  {
  }

  // Persisted sessions.

  function SessionBytes(s: Session): (r: seq<Byte>)
    ensures |r| == 24
  {
    Le64(s.expectedBytes) + Le64(s.receivedBytes) + Le64(s.expectedBlock)
  }

  function ParseSession(b: seq<Byte>): Option<Session> {
    if |b| < 24 then None
    else Some(Session(FromLe64(b[..8]), FromLe64(b[8..16]), FromLe64(b[16..24])))
  }

  function Load(env: Env, files: map<Path, seq<Byte>>, id: Text): Option<Session> {
    if MetaFile(env, id) in files then ParseSession(files[MetaFile(env, id)]) else None
  }

  function Store(env: Env, u: Ucm, id: Text, s: Session): Ucm {
    u.(sessions := u.sessions[id := s], files := u.files[MetaFile(env, id) := SessionBytes(s)])
  }

  function WithoutFiles(env: Env, files: map<Path, seq<Byte>>, id: Text): map<Path, seq<Byte>> {
    map p | p in files && p != PackageFile(env, id) && p != MetaFile(env, id) :: files[p]
  }

  // The calls.

  datatype Started = Started(ucm: Ucm, errc: nat, id: Text, blockSize: nat)

  /** available is the free space if it could be determined. */
  function TransferStart(env: Env, u: Ucm, size: Word64, available: Option<nat>, openable: bool): Started {
    if available.Some? && size > available.value then Started(u, INSUFFICIENT_MEMORY, [], 0) else
    var id := Decimal(u.nextId);
    var v := u.(nextId := u.nextId + 1);
    if !openable then Started(v, INSUFFICIENT_MEMORY, [], 0) else
    var w := v.(files := v.files[PackageFile(env, id) := []], trace := v.trace + [Opened(id, size)]);
    Started(Store(env, w, id, Session(size, 0, 1)), SUCCESS, id, BLOCK_SIZE)
  }

  datatype Done = Done(ucm: Ucm, errc: nat)

  /** The session a transfer call works on: the one in memory, else the persisted one. */
  function Resolve(env: Env, u: Ucm, id: Text): Option<Session> {
    if id in u.sessions then Some(u.sessions[id]) else Load(env, u.files, id)
  }

  /** A block is accepted when it is the next one and does not exceed the announced size. */
  function BlockVerdict(s: Session, block: seq<Byte>, counter: Word64, openable: bool): nat {
    if counter != s.expectedBlock then INCORRECT_BLOCK
    else if s.receivedBytes + |block| > s.expectedBytes then INCORRECT_SIZE
    else if !openable then INSUFFICIENT_MEMORY
    else SUCCESS
  }

  function NextSession(s: Session, block: seq<Byte>): Session {
    Session(s.expectedBytes, s.receivedBytes + |block|, (s.expectedBlock + 1) % U64)
  }

  function Append(files: map<Path, seq<Byte>>, path: Path, block: seq<Byte>): map<Path, seq<Byte>> {
    files[path := (if path in files then files[path] else []) + block]
  }

  function TransferData(env: Env, u: Ucm, id: Text, block: seq<Byte>, counter: Word64, openable: bool): Done {
    var found := Resolve(env, u, id);
    if found.None? then Done(u, INVALID_TRANSFER_ID) else
    var s := found.value;
    var v := u.(sessions := u.sessions[id := s]);
    var errc := BlockVerdict(s, block, counter, openable);
    if errc != SUCCESS then Done(v, errc) else
    var w := v.(files := Append(v.files, PackageFile(env, id), block), trace := v.trace + [Block(id, counter, block)]);
    Done(Store(env, w, id, NextSession(s, block)), SUCCESS)
  }

  function TransferExit(u: Ucm, id: Text): nat {
    if id !in u.sessions then INVALID_TRANSFER_ID
    else if u.sessions[id].receivedBytes == 0 then OPERATION_NOT_PERMITTED
    else if u.sessions[id].receivedBytes != u.sessions[id].expectedBytes then INSUFFICIENT_DATA
    else SUCCESS
  }

  function Drop(env: Env, u: Ucm, id: Text): Ucm {
    u.(sessions := Without(u.sessions, id), files := WithoutFiles(env, u.files, id),
       trace := u.trace + [Dropped(id)])
  }

  function DeleteTransfer(env: Env, u: Ucm, id: Text): Done {
    if id !in u.sessions then Done(u, INVALID_TRANSFER_ID) else Done(Drop(env, u, id), SUCCESS)
  }

  /** Why the contents of a package are refused, before anything is written. */
  function ContentsVerdict(env: Env, c: Option<P.Contents>, current: Text): nat {
    if c.None? then INVALID_PACKAGE_MANIFEST
    else if c.value.manifest.signature != env.hmac(c.value.payload) then AUTHENTICATION_FAILED
    else if c.value.manifest.version == current then INCOMPATIBLE_PACKAGE_VERSION
    else if exists d :: d in c.value.manifest.dependencies && d != current then MISSING_DEPENDENCIES
    else SUCCESS
  }

  /** current is the installed version; accepted says whether the OTA manager takes the image. */
  function ProcessSwPackage(env: Env, u: Ucm, id: Text, current: Text, accepted: bool): Done {
    if id !in u.sessions then Done(u, INVALID_TRANSFER_ID) else
    if PackageFile(env, id) !in u.files then Done(u, INVALID_PACKAGE_MANIFEST) else
    var c := P.Unpack(u.files[PackageFile(env, id)]);
    var errc := ContentsVerdict(env, c, current);
    if errc != SUCCESS then Done(u, errc) else
    var image := c.value.payload;
    var v := u.(files := u.files[ImageFile(env, id) := image]);
    if env.digest(image) == [] then Done(v, INSUFFICIENT_MEMORY) else
    if !accepted then Done(v, SERVICE_BUSY) else
    var h := Handover(ImagePath(env, id), image, env.digest(image), c.value.manifest.version);
    Done(Drop(env, v.(handed := v.handed + [h]), id), SUCCESS)
  }

  /** The service process ends and starts again; the files stay. */
  function Restart(u: Ucm): Ucm {
    u.(sessions := map[], nextId := 1)
  }

  // Whose file is whose.

  /** An id without slash and NUL. The service does not ask for it. */
  predicate SafeId(id: Text) {
    SLASH !in id && NUL !in id
  }

  /** The three files of an id are three. */
  predicate Own(env: Env, id: Text) {
    && PackageFile(env, id) != MetaFile(env, id)
    && ImageFile(env, id) != PackageFile(env, id) && ImageFile(env, id) != MetaFile(env, id)
  }

  /** No file that calls on a may write is one that a transfer b is kept in. */
  predicate Apart(env: Env, a: Text, b: Text) {
    {PackageFile(env, a), MetaFile(env, a), ImageFile(env, a)} !! {PackageFile(env, b), MetaFile(env, b)}
  }

  lemma Extensions()
    ensures SafeId(Ascii(".zip")) && SafeId(Ascii(".meta")) && SafeId(Ascii(".img")) && Ascii("/") == [SLASH]
  {
  }

  /** A safe id's files stand in the transfer directory itself, under names made from the id. */
  lemma FilesOf(env: Env, id: Text)
    requires SafeId(id)
    ensures PackageFile(env, id) == Steps(env.transferDir) + [id + Ascii(".zip")]
    ensures MetaFile(env, id) == Steps(env.transferDir) + [id + Ascii(".meta")]
    ensures ImageFile(env, id) == Steps(env.transferDir) + [id + Ascii(".zip") + Ascii(".img")]
  {
    hide FileAt, Steps, Ascii;
    Extensions();
    var zip, meta, img := Ascii(".zip"), Ascii(".meta"), Ascii(".img");
    FileBelow(env.transferDir, env.elsewhere, id + zip);
    FileBelow(env.transferDir, env.elsewhere, id + meta);
    FileBelow(env.transferDir, env.elsewhere, id + zip + img);
    assert PackagePath(env, id) == env.transferDir + [SLASH] + (id + zip);
    assert MetaPath(env, id) == env.transferDir + [SLASH] + (id + meta);
    assert ImagePath(env, id) == env.transferDir + [SLASH] + (id + zip + img);
  }

  function Last<T>(t: seq<T>): T
    requires |t| > 0
  {
    t[|t| - 1]
  }

  /** Safe ids share no file, neither with each other nor among their own. */
  lemma SafeIdsApart(env: Env, a: Text, b: Text)
    requires SafeId(a) && SafeId(b)
    ensures Own(env, a) && (a != b ==> Apart(env, a, b))
  {
    hide FileAt, Steps, SafeId;
    FilesOf(env, a);
    FilesOf(env, b);
    var zip, meta, img := Ascii(".zip"), Ascii(".meta"), Ascii(".img");
    assert (a + zip)[..|a + zip| - 4] == a && (b + zip)[..|b + zip| - 4] == b;
    assert (a + meta)[..|a + meta| - 5] == a && (b + meta)[..|b + meta| - 5] == b;
    assert Last(a + zip) == 112 && Last(a + meta) == 97 && Last(a + zip + img) == 103;
    assert Last(b + zip) == 112 && Last(b + meta) == 97;
    assert Last(PackageFile(env, a)) == a + zip && Last(MetaFile(env, a)) == a + meta;
    assert Last(PackageFile(env, b)) == b + zip && Last(MetaFile(env, b)) == b + meta;
    assert Last(ImageFile(env, a)) == a + zip + img;
  }

  /** Every id the service issues is safe. */
  lemma {:induction false} IssuedIdSafe(n: nat)
    ensures SafeId(Decimal(n))
    decreases n
  {
    if n >= 10 {
      IssuedIdSafe(n / 10);
    }
  }

  lemma SessionRoundTrip(s: Session)
    requires s.expectedBytes < U64 && s.receivedBytes < U64 && s.expectedBlock < U64
    ensures ParseSession(SessionBytes(s)) == Some(s)
  {
    var b := SessionBytes(s);
    assert b[..8] == Le64(s.expectedBytes) && b[8..16] == Le64(s.receivedBytes) && b[16..24] == Le64(s.expectedBlock);
    Le64RoundTrip(s.expectedBytes);
    Le64RoundTrip(s.receivedBytes);
    Le64RoundTrip(s.expectedBlock);
  }
}
