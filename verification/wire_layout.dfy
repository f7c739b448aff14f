/** The bytes on the wire and on disk: every number digit by digit, every message field by field. */
module WireLayout {
  import opened Bytes
  import L = LeCodec
  import M = UcmModel
  import P = PackageManifest
  import U = UcmRpc
  import V = VehicleStatusRpc

  /** The n lowest base-256 digits of v, least significant first. */
  function Little(v: nat, n: nat): seq<Byte> {
    seq(n, k requires 0 <= k < n => v / V.Power(k) % 256)
  }

  /** The same digits, most significant first. */
  function Big(v: nat, n: nat): seq<Byte> {
    seq(n, k requires 0 <= k < n => v / V.Power(n - 1 - k) % 256)
  }

  /** A string is its length and its bytes. */
  function LittleText(t: Text): seq<Byte> {
    Little(|t|, 4) + t
  }

  function BigText(t: Text): seq<Byte> {
    Big(|t|, 4) + t
  }

  // Numbers.

  lemma Powers()
    ensures V.Power(0) == 1 && V.Power(1) == 256 && V.Power(2) == 0x1_0000 && V.Power(3) == 0x100_0000
    ensures V.Power(4) == U32
  {
  }

  lemma LittleFour(v: nat)
    ensures Le32(v) == Little(v, 4)
  {
    Powers();
    hide V.Power;
  }

  lemma BigTwo(v: nat)
    ensures Be16(v) == Big(v, 2)
  {
    Powers();
    hide V.Power;
  }

  lemma BigFour(v: nat)
    ensures Be32(v) == Big(v, 4)
  {
    Powers();
    hide V.Power;
  }

  lemma BigEight(v: nat)
    ensures V.Digits(v, 8) == Big(v, 8)
  {
    hide V.Digits, V.Power;
    forall k | 0 <= k < 8 ensures V.Digits(v, 8)[k] == Big(v, 8)[k] {
      V.DigitAt(v, 8, k);
    }
  }

  /** The low half has the low digits. */
  lemma LowDigit(v: nat, k: nat)
    requires k < 4
    ensures v % U32 / V.Power(k) % 256 == v / V.Power(k) % 256
  {
    Powers();
    hide V.Power;
    match k
    case 0 => LowFirst(v / U32, v % U32);
    case 1 => LowSecond(v / U32, v % U32);
    case 2 => LowThird(v / U32, v % U32);
    case _ => LowFourth(v / U32, v % U32);
  }

  lemma LowFirst(h: nat, low: nat)
    ensures (U32 * h + low) % 256 == low % 256
  {
    assert U32 * h == 256 * (0x100_0000 * h);
    Mod256(0x100_0000 * h, low);
  }

  lemma Shifted(p: nat, h: nat, low: nat)
    requires p > 0
    ensures (p * h + low) / p == h + low / p
  {
    assert p * h + p * (low / p) == p * (h + low / p);
    V.DivUnique(p * h + low, p, h + low / p, low % p);
  }

  lemma Mod256(a: nat, b: nat)
    ensures (256 * a + b) % 256 == b % 256
  {
  }

  lemma LowSecond(h: nat, low: nat)
    ensures (U32 * h + low) / 256 % 256 == low / 256 % 256
  {
    Shifted(256, 0x100_0000 * h, low);
    assert 0x100_0000 * h == 256 * (0x1_0000 * h);
    Mod256(0x1_0000 * h, low / 256);
  }

  lemma LowThird(h: nat, low: nat)
    ensures (U32 * h + low) / 0x1_0000 % 256 == low / 0x1_0000 % 256
  {
    Shifted(0x1_0000, 0x1_0000 * h, low);
    assert 0x1_0000 * h == 256 * (256 * h);
    Mod256(256 * h, low / 0x1_0000);
  }

  lemma LowFourth(h: nat, low: nat)
    ensures (U32 * h + low) / 0x100_0000 % 256 == low / 0x100_0000 % 256
  {
    Shifted(0x100_0000, 256 * h, low);
    assert 256 * h == 256 * (h);
    Mod256(h, low / 0x100_0000);
  }

  lemma HighDigit(v: nat, k: nat)
    requires k < 4
    ensures v / U32 / V.Power(k) == v / V.Power(k + 4)
    decreases k
  {
    if k == 0 {
      Powers();
    } else {
      HighDigit(v, k - 1);
      var p := V.Power(k - 1);
      Regroup(v / U32, p);
      Regroup(v, V.Power(k + 3));
    }
  }

  lemma Regroup(v: nat, p: nat)
    requires p > 0
    ensures v / p / 256 == v / (256 * p)
  {
    var q, r := v / p / 256, v / p % 256;
    assert v == p * (256 * q + r) + v % p;
    assert v == (256 * p) * q + (p * r + v % p);
    V.MulStep(p, r, 256);
    assert p * 256 == 256 * p;
    V.DivUnique(v, 256 * p, q, p * r + v % p);
  }

  lemma LittleEight(v: nat)
    requires v < U64
    ensures Le64(v) == Little(v, 8)
  {
    hide V.Power, Le32;
    LittleFour(v % U32);
    LittleFour(v / U32);
    forall k | 0 <= k < 8 ensures Le64(v)[k] == Little(v, 8)[k] {
      if k < 4 {
        LowDigit(v, k);
        assert Le64(v)[k] == Le32(v % U32)[k] == v % U32 / V.Power(k) % 256;
      } else {
        HighDigit(v, k - 4);
        assert Le64(v)[k] == Le32(v / U32)[k - 4] == v / U32 / V.Power(k - 4) % 256;
      }
    }
  }

  lemma TextBytes(t: Text)
    requires |t| < U32
    ensures L.PutText(t) == LittleText(t) && V.PutText(t) == BigText(t)
  {
    hide Little, Big, Le32, Be32;
    LittleFour(|t|);
    BigFour(|t|);
  }

  // The UCM protocol.

  /** Main result: each request of the UCM proxy, byte by byte: its method number, and its fields in their
      order, numbers least significant byte first. */
  lemma UcmRequestBytes(c: U.Call)
    requires U.RequestFits(c)
    ensures var id, req := U.MethodId(c), U.EncodeRequest(c);
      match c
      case TransferStart(size) => id == 0x01 && req == Little(size, 8)
      case TransferData(transfer, block, counter) =>
        id == 0x02 && req == Little(|transfer|, 4) + transfer + Little(counter, 8) + (Little(|block|, 4) + block)
      case TransferExit(transfer) => id == 0x03 && req == Little(|transfer|, 4) + transfer
      case ProcessSwPackage(transfer) => id == 0x04 && req == Little(|transfer|, 4) + transfer
      case DeleteTransfer(transfer) => id == 0x05 && req == Little(|transfer|, 4) + transfer
      case Activate => id == 0x06 && req == []
      case Finish => id == 0x07 && req == []
      case Cancel(transfer) => id == 0x08 && req == Little(|transfer|, 4) + transfer
      case Rollback => id == 0x09 && req == []
      case RevertProcessedSwPackages => id == 0x0A && req == []
      case GetSwPackages => id == 0x0B && req == []
      case GetSwClusterInfo => id == 0x0C && req == []
      case GetSwClusterChangeInfo => id == 0x0D && req == []
      case GetSwClusterDescription(name) => id == 0x0E && req == Little(|name|, 4) + name
      case GetSwProcessProgress(transfer) => id == 0x0F && req == Little(|transfer|, 4) + transfer
      case GetHistory => id == 0x10 && req == []
      case GetId => id == 0x11 && req == []
  {
    hide L.PutText, Little, Le64;
    match c
    case TransferStart(size) => LittleEight(size);
    case TransferData(transfer, block, counter) =>
      TextIs(transfer);
      TextIs(block);
      LittleEight(counter);
    case TransferExit(transfer) => TextIs(transfer);
    case ProcessSwPackage(transfer) => TextIs(transfer);
    case DeleteTransfer(transfer) => TextIs(transfer);
    case Cancel(transfer) => TextIs(transfer);
    case GetSwClusterDescription(name) => TextIs(name);
    case GetSwProcessProgress(transfer) => TextIs(transfer);
    case _ =>
  }

  lemma TextIs(t: Text)
    requires |t| < U32
    ensures L.PutText(t) == Little(|t|, 4) + t
  {
    TextBytes(t);
  }

  /** A counted list: the number of entries, and every entry's strings in their order. */
  function LittleRows(rows: seq<seq<Text>>): seq<Byte> {
    if rows == [] then [] else LittleTexts(rows[0]) + LittleRows(rows[1..])
  }

  function LittleTexts(ts: seq<Text>): seq<Byte> {
    if ts == [] then [] else LittleText(ts[0]) + LittleTexts(ts[1..])
  }

  lemma {:induction false} TextsBytes(ts: seq<Text>)
    requires forall t :: t in ts ==> |t| < U32
    ensures L.PutTexts(ts) == LittleTexts(ts)
  {
    hide L.PutText, LittleText;
    if ts != [] {
      assert ts[0] in ts;
      TextBytes(ts[0]);
      TextsBytes(ts[1..]);
    }
  }

  lemma {:induction false} RowsBytes(rows: seq<seq<Text>>, width: nat)
    requires forall row :: row in rows ==> U.RowFits(row, width)
    ensures U.PutRows(rows) == LittleRows(rows)
  {
    hide L.PutTexts, LittleTexts;
    if rows != [] {
      assert rows[0] in rows;
      TextsBytes(rows[0]);
      RowsBytes(rows[1..], width);
    }
  }

  lemma CountBytes(n: nat)
    requires n < U32
    ensures Le32(n % U32) == Little(n, 4) && Be32(n % U32) == Big(n, 4)
  {
    hide Le32, Little, Be32, Big;
    assert n % U32 == n;
    LittleFour(n);
    BigFour(n);
  }

  lemma SignedBytes(n: int)
    requires -0x8000_0000 <= n < 0x8000_0000
    ensures Le32(n % U32) == Little(if n < 0 then n + U32 else n, 4)
  {
    hide Le32, Little;
    assert n % U32 == if n < 0 then n + U32 else n;
    LittleFour(n % U32);
  }

  lemma ListBytes(rows: seq<seq<Text>>, width: nat)
    requires |rows| < U32 && forall row :: row in rows ==> U.RowFits(row, width)
    ensures Le32(|rows| % U32) + U.PutRows(rows) == Little(|rows|, 4) + LittleRows(rows)
  {
    hide Little, LittleRows, U.PutRows, U.RowFits, Le32;
    CountBytes(|rows|);
    RowsBytes(rows, width);
  }

  lemma PackageListBytes(ps: seq<U.Package>)
    requires |ps| < U32 && forall p :: p in ps ==> |p.name| < U32 && |p.version| < U32
    ensures Le32(|ps| % U32) + U.PutRows(U.PackageRows(ps)) == Little(|ps|, 4) +
      LittleRows(seq(|ps|, i requires 0 <= i < |ps| => [ps[i].name, ps[i].version]))
  {
    hide Little, LittleRows, U.PutRows, Le32;
    var rows := U.PackageRows(ps);
    assert rows == seq(|ps|, i requires 0 <= i < |ps| => [ps[i].name, ps[i].version]);
    assert forall row :: row in rows ==> U.RowFits(row, 2);
    hide U.RowFits, U.PackageRows;
    ListBytes(rows, 2);
  }

  lemma ClusterListBytes(cs: seq<U.Cluster>)
    requires |cs| < U32 && forall c :: c in cs ==> |c.name| < U32 && |c.version| < U32 && |c.state| < U32
    ensures Le32(|cs| % U32) + U.PutRows(U.ClusterRows(cs)) == Little(|cs|, 4) +
      LittleRows(seq(|cs|, i requires 0 <= i < |cs| => [cs[i].name, cs[i].version, cs[i].state]))
  {
    hide Little, LittleRows, U.PutRows, Le32;
    var rows := U.ClusterRows(cs);
    assert rows == seq(|cs|, i requires 0 <= i < |cs| => [cs[i].name, cs[i].version, cs[i].state]);
    assert forall row :: row in rows ==> U.RowFits(row, 3);
    hide U.RowFits, U.ClusterRows;
    ListBytes(rows, 3);
  }

  lemma EntryListBytes(es: seq<U.HistoryEntry>)
    requires |es| < U32 && forall e :: e in es ==> |e.from| < U32 && |e.to| < U32 && |e.result| < U32
    ensures Le32(|es| % U32) + U.PutRows(U.EntryRows(es)) == Little(|es|, 4) +
      LittleRows(seq(|es|, i requires 0 <= i < |es| => [es[i].from, es[i].to, es[i].result]))
  {
    hide Little, LittleRows, U.PutRows, Le32;
    var rows := U.EntryRows(es);
    assert rows == seq(|es|, i requires 0 <= i < |es| => [es[i].from, es[i].to, es[i].result]);
    assert forall row :: row in rows ==> U.RowFits(row, 3);
    hide U.RowFits, U.EntryRows;
    ListBytes(rows, 3);
  }

  /** The outputs of a UCM reply, byte by byte. */
  lemma UcmOutputBytes(kind: U.Kind, out: U.Outputs)
    requires U.OutputsFit(kind, out)
    ensures var bytes := U.EncodeOutputs(out);
      match out
      case Nothing => bytes == []
      case Transfer(id, blockSize) => bytes == LittleText(id) + Little(blockSize, 4)
      case Name(text) => bytes == LittleText(text)
      case Packages(ps) =>
        bytes == Little(|ps|, 4) + LittleRows(seq(|ps|, i requires 0 <= i < |ps| => [ps[i].name, ps[i].version]))
      case Clusters(cs) =>
        bytes == Little(|cs|, 4) +
          LittleRows(seq(|cs|, i requires 0 <= i < |cs| => [cs[i].name, cs[i].version, cs[i].state]))
      case Status(state, percent, detail) =>
        bytes == LittleText(state) + Little(if percent < 0 then percent + U32 else percent, 4) + LittleText(detail)
      case Entries(es) =>
        bytes == Little(|es|, 4) +
          LittleRows(seq(|es|, i requires 0 <= i < |es| => [es[i].from, es[i].to, es[i].result]))
  {
    hide L.PutText, LittleText, Little, LittleRows, U.PutRows, Le32, U.RowFits;
    match out
    case Nothing =>
    case Transfer(id, blockSize) =>
      TextBytes(id);
      CountBytes(blockSize);
    case Name(text) => TextBytes(text);
    case Packages(ps) => PackageListBytes(ps);
    case Clusters(cs) => ClusterListBytes(cs);
    case Status(state, percent, detail) =>
      TextBytes(state);
      SignedBytes(percent);
      TextBytes(detail);
    case Entries(es) => EntryListBytes(es);
  }

  /** The outputs each call brings back on success. */
  lemma UcmOutputsOf(c: U.Call, kind: U.Kind, out: U.Outputs)
    requires U.OutputsFit(kind, out)
    ensures U.OutputsFit(U.KindOf(U.MethodId(c)), out) <==>
      if c.TransferStart? then out.Transfer?
      else if c.GetSwPackages? then out.Packages?
      else if c.GetSwClusterInfo? || c.GetSwClusterChangeInfo? then out.Clusters?
      else if c.GetSwClusterDescription? || c.GetId? then out.Name?
      else if c.GetSwProcessProgress? then out.Status?
      else if c.GetHistory? then out.Entries?
      else out.Nothing?
  {
  }

  /** A UCM response is the code in four bytes and, with code 0 alone, the outputs. A request that cannot be
      read is answered with code 5. */
  lemma UcmResponseBytes<S>(serve: (S, U.Call) -> (S, U.Reply), s: S, methodId: nat, req: seq<Byte>)
    requires var c := U.DecodeRequest(methodId, req);
      c.Some? ==> 0 <= serve(s, c.value).1.errc < U32
    ensures var c := U.DecodeRequest(methodId, req);
      var resp := U.Skeleton(serve, s, methodId, req).1;
      if c.None? then resp == [5, 0, 0, 0] else
      var reply := serve(s, c.value).1;
      resp == Little(reply.errc, 4) + if reply.errc == 0 then U.EncodeOutputs(reply.out) else []
  {
    LittleSmall(5);
    hide U.DecodeRequest, U.EncodeOutputs, Little, Le32;
    var c := U.DecodeRequest(methodId, req);
    if c.Some? {
      CountBytes(serve(s, c.value).1.errc);
    }
  }

  lemma LittleSmall(b: Byte)
    ensures Le32(b) == [b, 0, 0, 0]
  {
  }

  // The vehicle status protocol.

  /** Main result: each request of the vehicle status proxy, byte by byte: its method number, and its fields in
      their order, numbers most significant byte first. */
  lemma VehicleRequestBytes(c: V.Call)
    requires V.RequestFits(c)
    ensures var id, req := V.MethodId(c), V.EncodeRequest(c);
      match c
      case GetStatus => id == 1 && req == []
      case StartUpdate(version, size, sha256) =>
        id == 2 && req == Big(|version|, 4) + version + Big(size, 8) + (Big(|sha256|, 4) + sha256)
      case GetProgress(update) => id == 3 && req == Big(|update|, 4) + update
      case Rollback => id == 4 && req == []
  {
    hide V.PutText, V.Digits, Big;
    match c
    case StartUpdate(version, size, sha256) =>
      BigTextIs(version);
      BigTextIs(sha256);
      BigEight(size);
    case GetProgress(update) => BigTextIs(update);
    case _ =>
  }

  lemma BigTextIs(t: Text)
    requires |t| < U32
    ensures V.PutText(t) == Big(|t|, 4) + t
  {
    TextBytes(t);
  }

  /** The outputs of its replies, byte by byte; a notification is built like the last. */
  lemma VehicleOutputBytes(id: nat, out: V.Outputs)
    requires V.OutputsFit(id, out)
    ensures var bytes := V.EncodeOutputs(out);
      match out
      case Nothing => bytes == []
      case Status(version, slot, state) => bytes == BigText(version) + BigText(slot) + [state]
      case Started(update) => bytes == BigText(update)
      case ProgressOf(state, percent, detail) => bytes == [state] + Big(percent, 4) + BigText(detail)
  {
    hide V.PutText, BigText, Big, Be32;
    match out
    case Nothing =>
    case Status(version, slot, state) =>
      TextBytes(version);
      TextBytes(slot);
    case Started(update) => TextBytes(update);
    case ProgressOf(state, percent, detail) =>
      CountBytes(percent);
      TextBytes(detail);
  }

  /** A vehicle status response; a request that cannot be read is answered with code 1. */
  lemma VehicleResponseBytes<S>(serve: (S, V.Call) -> (S, V.Reply), s: S, id: nat, req: seq<Byte>)
    requires var c := V.DecodeRequest(id, req);
      c.Some? ==> serve(s, c.value).1.errc < U32
    ensures var c := V.DecodeRequest(id, req);
      var resp := V.Skeleton(serve, s, id, req).1;
      if c.None? then resp == [0, 0, 0, 1] else
      var reply := serve(s, c.value).1;
      resp == Big(reply.errc, 4) + if reply.errc == 0 then V.EncodeOutputs(reply.out) else []
  {
    BigSmall(1);
    hide V.DecodeRequest, V.EncodeOutputs, Big, Be32;
    var c := V.DecodeRequest(id, req);
    if c.Some? {
      CountBytes(serve(s, c.value).1.errc);
    }
  }

  lemma BigSmall(b: Byte)
    ensures Be32(b) == [0, 0, 0, b]
  {
  }

  // What is kept in files.

  /** A session file: announced size, bytes received, next block, eight bytes each. */
  lemma SessionFileBytes(s: M.Session)
    requires s.expectedBytes < U64 && s.receivedBytes < U64 && s.expectedBlock < U64
    ensures M.SessionBytes(s) == Little(s.expectedBytes, 8) + Little(s.receivedBytes, 8) + Little(s.expectedBlock, 8)
  {
    hide Le64, Little;
    LittleEight(s.expectedBytes);
    LittleEight(s.receivedBytes);
    LittleEight(s.expectedBlock);
  }

  /** A package: the length of the manifest, the manifest with its fields in their order, the payload. */
  lemma PackageBytes(m: P.Manifest, payload: seq<Byte>)
    requires |P.Blob(m)| < U32
    ensures P.Package(m, payload) == Little(|ManifestBytes(m)|, 4) + ManifestBytes(m) + payload
  {
    hide Le32, Little;
    ManifestIs(m);
    hide P.Blob, ManifestBytes;
    LittleFour(|P.Blob(m)|);
  }

  function ManifestBytes(m: P.Manifest): seq<Byte> {
    LittleText(m.name) + LittleText(m.version) +
    Little(|m.dependencies|, 4) + LittleTexts(m.dependencies) + LittleText(m.signature)
  }

  lemma ManifestFits(m: P.Manifest)
    requires |P.Blob(m)| < U32
    ensures |m.name| < U32 && |m.version| < U32 && |m.dependencies| < U32 && |m.signature| < U32
    ensures forall d :: d in m.dependencies ==> |d| < U32
  {
    hide Le32, L.PutTexts;
    L.PutTextsBounds(m.dependencies);
  }

  lemma ManifestIs(m: P.Manifest)
    requires |P.Blob(m)| < U32
    ensures P.Blob(m) == ManifestBytes(m)
  {
    ManifestFits(m);
    FieldsAre(m);
  }

  lemma FieldsAre(m: P.Manifest)
    requires |m.name| < U32 && |m.version| < U32 && |m.dependencies| < U32 && |m.signature| < U32
    requires forall d :: d in m.dependencies ==> |d| < U32
    ensures P.Blob(m) == ManifestBytes(m)
  {
    hide Le32, Little, LittleText, LittleTexts, L.PutText, L.PutTexts;
    TextBytes(m.name);
    TextBytes(m.version);
    TextBytes(m.signature);
    CountBytes(|m.dependencies|);
    TextsBytes(m.dependencies);
  }
}
