/** What the decoders of both RPC layers accept: exactly what the encoders write, with anything behind it. */
module WireDecoding {
  import opened Bytes
  import L = LeCodec
  import U = UcmRpc
  import V = VehicleStatusRpc

  // Little-endian fields at the front of a stream.

  lemma Le64Onto(s: seq<Byte>)
    requires |s| == 8
    ensures Le64(FromLe64(s)) == s
  {
    hide FromLe32, Le32;
    var low, high := FromLe32(s[..4]), FromLe32(s[4..]);
    assert FromLe64(s) % U32 == low && FromLe64(s) / U32 == high;
    Le32Onto(s[..4]);
    Le32Onto(s[4..]);
  }

  lemma TextRead(s: seq<Byte>, t: Text, rest: seq<Byte>)
    ensures L.TakeText(s) == Taken(t, rest) <==> s == L.PutText(t) + rest && |t| < U32
  {
    L.TakeTextExact(s, t, rest);
  }

  lemma NumberRead(s: seq<Byte>, v: nat, rest: seq<Byte>)
    ensures L.TakeU32(s) == Taken(v, rest) <==> s == Le32(v) + rest && v < U32
    ensures L.TakeU64(s) == Taken(v, rest) <==> s == Le64(v) + rest && v < U64
  {
    hide Le32, FromLe32, Le64, FromLe64;
    if L.TakeU32(s).Taken? { L.TakeU32Onto(s); }
    if |s| >= 8 {
      Le64Onto(s[..8]);
      assert s == s[..8] + s[8..];
    }
    if v < U32 { L.TakePutU32(v, rest); }
    if v < U64 { L.TakePutU64(v, rest); }
  }

  lemma Prefix(a: seq<Byte>, s: seq<Byte>)
    ensures a <= s <==> exists rest :: s == a + rest
  {
    if a <= s { assert s == a + s[|a|..]; }
  }

  // UCM requests.

  lemma OneText(req: seq<Byte>, t: Text)
    ensures L.TakeText(req).Taken? && L.TakeText(req).value == t <==> L.PutText(t) <= req && |t| < U32
  {
    hide L.TakeText, L.PutText;
    Prefix(L.PutText(t), req);
    if L.TakeText(req).Taken? { TextRead(req, L.TakeText(req).value, L.TakeText(req).rest); }
    if L.PutText(t) <= req { TextRead(req, t, req[|L.PutText(t)|..]); }
  }

  lemma OneNumber(req: seq<Byte>, v: nat)
    ensures L.TakeU64(req).Taken? && L.TakeU64(req).value == v <==> Le64(v) <= req && v < U64
  {
    hide L.TakeU64, Le64;
    Prefix(Le64(v), req);
    if L.TakeU64(req).Taken? { NumberRead(req, L.TakeU64(req).value, L.TakeU64(req).rest); }
    if Le64(v) <= req { NumberRead(req, v, req[|Le64(v)|..]); }
  }

  lemma DataRead(req: seq<Byte>, id: Text, block: seq<Byte>, counter: nat)
    ensures U.DecodeRequest(2, req) == Some(U.TransferData(id, block, counter)) <==>
      && L.PutText(id) + Le64(counter) + L.PutText(block) <= req
      && |id| < U32 && |block| < U32 && counter < U64
  {
    hide L.TakeText, L.PutText, L.TakeU64, Le64;
    var front := L.PutText(id) + Le64(counter) + L.PutText(block);
    if U.DecodeRequest(2, req) == Some(U.TransferData(id, block, counter)) {
      var i := L.TakeText(req);
      var c := L.TakeU64(i.rest);
      var b := L.TakeText(c.rest);
      TextRead(req, id, i.rest);
      NumberRead(i.rest, counter, c.rest);
      TextRead(c.rest, block, b.rest);
      assert req == front + b.rest;
    }
    if front <= req && |id| < U32 && |block| < U32 && counter < U64 {
      var rest := req[|front|..];
      assert req == L.PutText(id) + (Le64(counter) + (L.PutText(block) + rest));
      TextRead(req, id, Le64(counter) + (L.PutText(block) + rest));
      NumberRead(Le64(counter) + (L.PutText(block) + rest), counter, L.PutText(block) + rest);
      TextRead(L.PutText(block) + rest, block, rest);
    }
  }

  /** Main result: a UCM request is read as a call exactly when it comes under the call's number and starts
      with the call's encoding. Every other is refused, and none is read as a call that does not fit. */
  lemma UcmRequestExact(methodId: nat, req: seq<Byte>, c: U.Call)
    ensures U.DecodeRequest(methodId, req) == Some(c) <==>
      methodId == U.MethodId(c) && U.RequestFits(c) && U.EncodeRequest(c) <= req
  {
    hide L.TakeText, L.PutText, L.TakeU64, Le64;
    match c
    case TransferStart(size) => if size >= 0 { OneNumber(req, size); }
    case TransferData(id, block, counter) =>
      hide U.WithText;
      if counter >= 0 { DataRead(req, id, block, counter); }
    case TransferExit(id) => OneText(req, id);
    case ProcessSwPackage(id) => OneText(req, id);
    case DeleteTransfer(id) => OneText(req, id);
    case Cancel(id) => OneText(req, id);
    case GetSwClusterDescription(name) => OneText(req, name);
    case GetSwProcessProgress(id) => OneText(req, id);
    case _ =>
  }

  // UCM outputs.

  lemma {:induction false} TextsFit(s: seq<Byte>, n: nat)
    requires L.TakeTexts(s, n).Taken?
    ensures forall t :: t in L.TakeTexts(s, n).value ==> |t| < U32
    decreases n
  {
    hide L.TakeText;
    if n > 0 { TextsFit(L.TakeText(s).rest, n - 1); }
  }

  lemma {:induction false} RowsOnto(s: seq<Byte>, n: nat, width: nat)
    requires U.TakeRows(s, n, width).Taken?
    ensures var rows := U.TakeRows(s, n, width).value;
      && |rows| == n && (forall row :: row in rows ==> U.RowFits(row, width))
      && s == U.PutRows(rows) + U.TakeRows(s, n, width).rest
    decreases n
  {
    hide L.TakeTexts, L.PutTexts;
    if n == 0 {
      assert s == [] + s;
    } else {
      var row := L.TakeTexts(s, width);
      TextsFit(s, width);
      L.TakeTextsOnto(s, width);
      RowsOnto(row.rest, n - 1, width);
      var rows := U.TakeRows(row.rest, n - 1, width);
      assert ([row.value] + rows.value)[1..] == rows.value;
      assert s == L.PutTexts(row.value) + (U.PutRows(rows.value) + rows.rest);
    }
  }

  /** A list is read where its count stands before its entries. */
  lemma ListRead(s: seq<Byte>, rows: seq<seq<Text>>, width: nat)
    ensures var n := L.TakeU32(s);
      (n.Taken? && U.TakeRows(n.rest, n.value, width).Taken? && U.TakeRows(n.rest, n.value, width).value == rows) <==>
      (|rows| < U32 && (forall row :: row in rows ==> U.RowFits(row, width)) && Le32(|rows|) + U.PutRows(rows) <= s)
  {
    hide L.TakeU32, Le32, U.TakeRows, U.PutRows, U.RowFits;
    var n, front := L.TakeU32(s), Le32(|rows|) + U.PutRows(rows);
    if n.Taken? && U.TakeRows(n.rest, n.value, width).Taken? && U.TakeRows(n.rest, n.value, width).value == rows {
      RowsOnto(n.rest, n.value, width);
      NumberRead(s, |rows|, n.rest);
      assert s == front + U.TakeRows(n.rest, n.value, width).rest;
    }
    if |rows| < U32 && (forall row :: row in rows ==> U.RowFits(row, width)) && front <= s {
      var rest := s[|front|..];
      assert s == Le32(|rows|) + (U.PutRows(rows) + rest);
      NumberRead(s, |rows|, U.PutRows(rows) + rest);
      U.TakePutRows(rows, width, rest);
    }
  }

  lemma TransferRead(s: seq<Byte>, id: Text, size: nat)
    ensures U.DecodeOutputs(U.TransferOutput, s) == Some(U.Transfer(id, size)) <==>
      |id| < U32 && size < U32 && L.PutText(id) + Le32(size) <= s
  {
    hide L.TakeText, L.PutText, L.TakeU32, Le32;
    var front := L.PutText(id) + Le32(size);
    if U.DecodeOutputs(U.TransferOutput, s) == Some(U.Transfer(id, size)) {
      var t := L.TakeText(s);
      var n := L.TakeU32(t.rest);
      TextRead(s, id, t.rest);
      NumberRead(t.rest, size, n.rest);
      assert s == front + n.rest;
    }
    if |id| < U32 && size < U32 && front <= s {
      var rest := s[|front|..];
      assert s == L.PutText(id) + (Le32(size) + rest);
      TextRead(s, id, Le32(size) + rest);
      NumberRead(Le32(size) + rest, size, rest);
    }
  }

  lemma Signed(p: int, n: nat)
    requires n < U32
    ensures U.ToInt32(n) == p <==> -0x8000_0000 <= p < 0x8000_0000 && n == p % U32
  {
  }

  lemma StatusRead(s: seq<Byte>, state: Text, percent: int, detail: Text)
    ensures U.DecodeOutputs(U.StatusOutput, s) == Some(U.Status(state, percent, detail)) <==>
      && |state| < U32 && -0x8000_0000 <= percent < 0x8000_0000 && |detail| < U32
      && L.PutText(state) + Le32(percent % U32) + L.PutText(detail) <= s
  {
    hide L.TakeText, L.PutText, L.TakeU32, Le32, U.ToInt32;
    var front := L.PutText(state) + Le32(percent % U32) + L.PutText(detail);
    if U.DecodeOutputs(U.StatusOutput, s) == Some(U.Status(state, percent, detail)) {
      var t := L.TakeText(s);
      var n := L.TakeU32(t.rest);
      var d := L.TakeText(n.rest);
      TextRead(s, state, t.rest);
      NumberRead(t.rest, n.value, n.rest);
      Signed(percent, n.value);
      TextRead(n.rest, detail, d.rest);
      assert s == front + d.rest;
    }
    if |state| < U32 && -0x8000_0000 <= percent < 0x8000_0000 && |detail| < U32 && front <= s {
      var rest := s[|front|..];
      var p := percent % U32;
      assert s == L.PutText(state) + (Le32(p) + (L.PutText(detail) + rest));
      TextRead(s, state, Le32(p) + (L.PutText(detail) + rest));
      NumberRead(Le32(p) + (L.PutText(detail) + rest), p, L.PutText(detail) + rest);
      Signed(percent, p);
      TextRead(L.PutText(detail) + rest, detail, rest);
    }
  }

  lemma PackagesRead(s: seq<Byte>, ps: seq<U.Package>)
    ensures U.DecodeOutputs(U.PackageList, s) == Some(U.Packages(ps)) <==>
      U.OutputsFit(U.PackageList, U.Packages(ps)) && U.EncodeOutputs(U.Packages(ps)) <= s
  {
    hide L.TakeU32, Le32, U.TakeRows, U.PutRows;
    var rows, n := U.PackageRows(ps), L.TakeU32(s);
    ListRead(s, rows, 2);
    if U.DecodeOutputs(U.PackageList, s) == Some(U.Packages(ps)) {
      U.TakeRowsWidth(n.rest, n.value, 2);
      var read := U.TakeRows(n.rest, n.value, 2).value;
      forall i | 0 <= i < |read| ensures read[i] == rows[i] {
        assert ps[i] == U.Package(read[i][0], read[i][1]);
      }
      assert read == rows;
      forall p | p in ps ensures |p.name| < U32 && |p.version| < U32 {
        var i :| 0 <= i < |ps| && ps[i] == p;
        assert U.RowFits(rows[i], 2) && rows[i] == [p.name, p.version];
        assert p.name in rows[i] && p.version in rows[i];
      }
    }
    if U.OutputsFit(U.PackageList, U.Packages(ps)) {
      assert forall row :: row in rows ==> U.RowFits(row, 2);
      assert U.ListOutputs(U.PackageList, rows).value.packages == ps;
    }
  }

  lemma ClustersRead(s: seq<Byte>, cs: seq<U.Cluster>)
    ensures U.DecodeOutputs(U.ClusterList, s) == Some(U.Clusters(cs)) <==>
      U.OutputsFit(U.ClusterList, U.Clusters(cs)) && U.EncodeOutputs(U.Clusters(cs)) <= s
  {
    hide L.TakeU32, Le32, U.TakeRows, U.PutRows;
    var rows, n := U.ClusterRows(cs), L.TakeU32(s);
    ListRead(s, rows, 3);
    if U.DecodeOutputs(U.ClusterList, s) == Some(U.Clusters(cs)) {
      U.TakeRowsWidth(n.rest, n.value, 3);
      var read := U.TakeRows(n.rest, n.value, 3).value;
      forall i | 0 <= i < |read| ensures read[i] == rows[i] {
        assert cs[i] == U.Cluster(read[i][0], read[i][1], read[i][2]);
      }
      assert read == rows;
      forall c | c in cs ensures |c.name| < U32 && |c.version| < U32 && |c.state| < U32 {
        var i :| 0 <= i < |cs| && cs[i] == c;
        assert U.RowFits(rows[i], 3) && rows[i] == [c.name, c.version, c.state];
        assert c.name in rows[i] && c.version in rows[i] && c.state in rows[i];
      }
    }
    if U.OutputsFit(U.ClusterList, U.Clusters(cs)) {
      assert forall row :: row in rows ==> U.RowFits(row, 3);
      assert U.ListOutputs(U.ClusterList, rows).value.clusters == cs;
    }
  }

  lemma EntriesRead(s: seq<Byte>, es: seq<U.HistoryEntry>)
    ensures U.DecodeOutputs(U.EntryList, s) == Some(U.Entries(es)) <==>
      U.OutputsFit(U.EntryList, U.Entries(es)) && U.EncodeOutputs(U.Entries(es)) <= s
  {
    hide L.TakeU32, Le32, U.TakeRows, U.PutRows;
    var rows, n := U.EntryRows(es), L.TakeU32(s);
    ListRead(s, rows, 3);
    if U.DecodeOutputs(U.EntryList, s) == Some(U.Entries(es)) {
      U.TakeRowsWidth(n.rest, n.value, 3);
      var read := U.TakeRows(n.rest, n.value, 3).value;
      forall i | 0 <= i < |read| ensures read[i] == rows[i] {
        assert es[i] == U.HistoryEntry(read[i][0], read[i][1], read[i][2]);
      }
      assert read == rows;
      forall e | e in es ensures |e.from| < U32 && |e.to| < U32 && |e.result| < U32 {
        var i :| 0 <= i < |es| && es[i] == e;
        assert U.RowFits(rows[i], 3) && rows[i] == [e.from, e.to, e.result];
        assert e.from in rows[i] && e.to in rows[i] && e.result in rows[i];
      }
    }
    if U.OutputsFit(U.EntryList, U.Entries(es)) {
      assert forall row :: row in rows ==> U.RowFits(row, 3);
      assert U.ListOutputs(U.EntryList, rows).value.entries == es;
    }
  }

  lemma NameRead(s: seq<Byte>, t: Text)
    ensures U.DecodeOutputs(U.NameOutput, s) == Some(U.Name(t)) <==> |t| < U32 && L.PutText(t) <= s
  {
    hide L.TakeText, L.PutText;
    OneText(s, t);
  }

  lemma KindFits(kind: U.Kind, s: seq<Byte>, out: U.Outputs)
    requires U.DecodeOutputs(kind, s) == Some(out)
    ensures match out
      case Nothing => kind == U.NoOutput
      case Transfer(_, _) => kind == U.TransferOutput
      case Name(_) => kind == U.NameOutput
      case Packages(_) => kind == U.PackageList
      case Clusters(_) => kind == U.ClusterList
      case Status(_, _, _) => kind == U.StatusOutput
      case Entries(_) => kind == U.EntryList
    ensures out.Transfer? ==> out.blockSize >= 0
  {
    hide L.TakeText, L.TakeU32, U.TakeRows;
  }

  lemma UcmOutputsExact(kind: U.Kind, s: seq<Byte>, out: U.Outputs)
    ensures U.DecodeOutputs(kind, s) == Some(out) <==> U.OutputsFit(kind, out) && U.EncodeOutputs(out) <= s
  {
    if U.DecodeOutputs(kind, s) == Some(out) { KindFits(kind, s, out); }
    hide L.TakeText, L.PutText, L.TakeU32, Le32, U.TakeRows, U.PutRows, U.DecodeOutputs;
    match out
    case Nothing => assert U.DecodeOutputs(U.NoOutput, s) == Some(U.Nothing) by { NothingRead(s); }
    case Transfer(id, size) =>
      if size >= 0 { TransferRead(s, id, size); }
      assert 0 <= size < U32 ==> size % U32 == size;
    case Name(t) => NameRead(s, t);
    case Packages(ps) => PackagesRead(s, ps);
    case Clusters(cs) => ClustersRead(s, cs);
    case Status(state, percent, detail) => StatusRead(s, state, percent, detail);
    case Entries(es) => EntriesRead(s, es);
  }

  lemma NothingRead(s: seq<Byte>)
    ensures U.DecodeOutputs(U.NoOutput, s) == Some(U.Nothing)
  {
  }

  /** Main result: the UCM proxy reports success with outputs exactly for a response of four zero bytes and the
      encoding of outputs of the method's kind that fit. A nonzero code is reported as it stands. Everything
      else, no response included, is code 5. */
  lemma UcmReplyExact(methodId: nat, resp: seq<Byte>, out: U.Outputs, errc: nat)
    requires 0 < errc < U32
    ensures U.ReadReply(methodId, None) == U.Reply(5, U.Nothing)
    ensures U.ReadReply(methodId, Some(resp)) == U.Reply(0, out) <==>
      U.OutputsFit(U.KindOf(methodId), out) && [0, 0, 0, 0] + U.EncodeOutputs(out) <= resp
    ensures Le32(errc) <= resp ==> U.ReadReply(methodId, Some(resp)) == U.Reply(errc, U.Nothing)
    ensures |resp| < 4 || (resp[..4] == [0, 0, 0, 0] && U.DecodeOutputs(U.KindOf(methodId), resp[4..]).None?) ==>
      U.ReadReply(methodId, Some(resp)) == U.Reply(5, U.Nothing)
  {
    ZeroBytes();
    hide Le32, FromLe32, U.DecodeOutputs, U.EncodeOutputs, U.OutputsFit, U.KindOf;
    if Le32(errc) <= resp { NumberRead(resp, errc, resp[4..]); }
    if |resp| >= 4 {
      UcmOutputsExact(U.KindOf(methodId), resp[4..], out);
      NumberRead(resp, 0, resp[4..]);
      Behind4([0, 0, 0, 0], U.EncodeOutputs(out), resp);
    }
  }

  lemma ZeroBytes()
    ensures Le32(0) == [0, 0, 0, 0] && Be32(0) == [0, 0, 0, 0]
  {
  }

  lemma Behind4(a: seq<Byte>, b: seq<Byte>, s: seq<Byte>)
    requires |a| == 4 <= |s|
    ensures a + b <= s <==> s == a + s[4..] && b <= s[4..]
    ensures s[..4] == a <==> s == a + s[4..]
  {
    assert s == s[..4] + s[4..];
    if a + b <= s {
      assert s == a + (b + s[|a + b|..]);
      assert s[4..] == b + s[|a + b|..];
    }
    if s == a + s[4..] && b <= s[4..] {
      assert s == a + b + s[4..][|b|..];
    }
  }

  // The vehicle status protocol.

  lemma {:induction false} ValueOnto(s: seq<Byte>)
    ensures V.Value(s) < V.Power(|s|) && V.Digits(V.Value(s), |s|) == s
    decreases |s|
  {
    if s != [] {
      var front := s[..|s| - 1];
      ValueOnto(front);
      assert V.Value(s) / 256 == V.Value(front) && V.Value(s) % 256 == s[|s| - 1];
      assert s == front + [s[|s| - 1]];
    }
  }

  lemma BigNumberRead(s: seq<Byte>, v: nat, rest: seq<Byte>)
    ensures V.TakeU32(s) == Taken(v, rest) <==> s == Be32(v) + rest && v < U32
    ensures V.TakeU64(s) == Taken(v, rest) <==> s == V.Digits(v, 8) + rest && v < U64
  {
    hide Be32, FromBe32, V.Digits, V.Value, V.Power;
    V.PowerEight();
    if |s| >= 4 {
      Be32Onto(s[..4]);
      assert s == s[..4] + s[4..];
    }
    if |s| >= 8 {
      ValueOnto(s[..8]);
      assert s == s[..8] + s[8..];
    }
    if v < U32 { V.TakePutU32(v, rest); }
    if v < U64 { V.TakePutU64(v, rest); }
  }

  lemma BigTextRead(s: seq<Byte>, t: Text, rest: seq<Byte>)
    ensures V.TakeText(s) == Taken(t, rest) <==> s == V.PutText(t) + rest && |t| < U32
  {
    hide Be32, V.TakeU32, V.TakeU64, V.Digits;
    if V.TakeText(s) == Taken(t, rest) {
      var n := V.TakeU32(s);
      BigNumberRead(s, |t|, n.rest);
      assert n.value == |t|;
      assert n.rest == t + rest;
      assert s == Be32(|t|) + t + rest;
    }
    if s == V.PutText(t) + rest && |t| < U32 { V.TakePutText(t, rest); }
  }

  lemma BigOneText(s: seq<Byte>, t: Text)
    ensures V.TakeText(s).Taken? && V.TakeText(s).value == t <==> V.PutText(t) <= s && |t| < U32
  {
    hide V.TakeText, V.PutText;
    Prefix(V.PutText(t), s);
    if V.TakeText(s).Taken? { BigTextRead(s, V.TakeText(s).value, V.TakeText(s).rest); }
    if V.PutText(t) <= s { BigTextRead(s, t, s[|V.PutText(t)|..]); }
  }

  lemma UpdateRead(req: seq<Byte>, version: Text, size: nat, sha256: Text)
    ensures V.DecodeRequest(2, req) == Some(V.StartUpdate(version, size, sha256)) <==>
      && V.PutText(version) + V.Digits(size, 8) + V.PutText(sha256) <= req
      && |version| < U32 && size < U64 && |sha256| < U32
  {
    hide V.TakeText, V.PutText, V.TakeU64, V.Digits;
    var front := V.PutText(version) + V.Digits(size, 8) + V.PutText(sha256);
    if V.DecodeRequest(2, req) == Some(V.StartUpdate(version, size, sha256)) {
      var t := V.TakeText(req);
      var n := V.TakeU64(t.rest);
      var d := V.TakeText(n.rest);
      BigTextRead(req, version, t.rest);
      BigNumberRead(t.rest, size, n.rest);
      BigTextRead(n.rest, sha256, d.rest);
      assert req == front + d.rest;
    }
    if front <= req && |version| < U32 && size < U64 && |sha256| < U32 {
      var rest := req[|front|..];
      assert req == V.PutText(version) + (V.Digits(size, 8) + (V.PutText(sha256) + rest));
      BigTextRead(req, version, V.Digits(size, 8) + (V.PutText(sha256) + rest));
      BigNumberRead(V.Digits(size, 8) + (V.PutText(sha256) + rest), size, V.PutText(sha256) + rest);
      BigTextRead(V.PutText(sha256) + rest, sha256, rest);
    }
  }

  /** Main result: a vehicle status request is read as a call exactly when it comes under the call's number and
      starts with the call's encoding. */
  lemma VehicleRequestExact(id: nat, req: seq<Byte>, c: V.Call)
    ensures V.DecodeRequest(id, req) == Some(c) <==>
      id == V.MethodId(c) && V.RequestFits(c) && V.EncodeRequest(c) <= req
  {
    hide V.TakeText, V.PutText, V.TakeU64, V.Digits;
    match c
    case StartUpdate(version, size, sha256) => UpdateRead(req, version, size, sha256);
    case GetProgress(update) => BigOneText(req, update);
    case _ =>
  }

  lemma StateRead(s: seq<Byte>, state: Byte, percent: nat, detail: Text)
    ensures V.TakeState(s) == Some(V.ProgressOf(state, percent, detail)) <==>
      percent < U32 && |detail| < U32 && V.PutState(state, percent, detail) <= s
  {
    hide V.TakeText, V.PutText, V.TakeU32, Be32;
    if V.TakeState(s) == Some(V.ProgressOf(state, percent, detail)) {
      var n := V.TakeU32(s[1..]);
      var d := V.TakeText(n.rest);
      BigNumberRead(s[1..], percent, n.rest);
      BigTextRead(n.rest, detail, d.rest);
      assert percent % U32 == percent;
      assert s == [state] + s[1..];
      assert s == V.PutState(state, percent, detail) + d.rest;
    }
    if percent < U32 && |detail| < U32 && V.PutState(state, percent, detail) <= s {
      var rest := s[|V.PutState(state, percent, detail)|..];
      assert percent % U32 == percent;
      assert s == [state] + (Be32(percent) + (V.PutText(detail) + rest));
      assert s[1..] == Be32(percent) + (V.PutText(detail) + rest);
      BigNumberRead(s[1..], percent, V.PutText(detail) + rest);
      BigTextRead(V.PutText(detail) + rest, detail, rest);
    }
  }

  lemma VehicleStatusRead(s: seq<Byte>, version: Text, slot: Text, state: Byte)
    ensures V.DecodeOutputs(1, s) == Some(V.Status(version, slot, state)) <==>
      |version| < U32 && |slot| < U32 && V.PutText(version) + V.PutText(slot) + [state] <= s
  {
    hide V.TakeText, V.PutText;
    var front := V.PutText(version) + V.PutText(slot) + [state];
    if V.DecodeOutputs(1, s) == Some(V.Status(version, slot, state)) {
      var t := V.TakeText(s);
      var u := V.TakeText(t.rest);
      BigTextRead(s, version, t.rest);
      BigTextRead(t.rest, slot, u.rest);
      assert u.rest == [state] + u.rest[1..];
      assert s == front + u.rest[1..];
    }
    if |version| < U32 && |slot| < U32 && front <= s {
      var rest := s[|front|..];
      assert s == V.PutText(version) + (V.PutText(slot) + ([state] + rest));
      BigTextRead(s, version, V.PutText(slot) + ([state] + rest));
      BigTextRead(V.PutText(slot) + ([state] + rest), slot, [state] + rest);
    }
  }

  lemma VehicleOutputsExact(id: nat, s: seq<Byte>, out: V.Outputs)
    requires 1 <= id <= 4
    ensures V.DecodeOutputs(id, s) == Some(out) <==> V.OutputsFit(id, out) && V.EncodeOutputs(out) <= s
  {
    hide V.TakeText, V.PutText, V.TakeState, V.PutState;
    match out
    case Nothing =>
      if id == 3 { StateShape(s); }
    case Status(version, slot, state) =>
      VehicleStatusRead(s, version, slot, state);
      if id == 3 { StateShape(s); }
    case Started(update) =>
      BigOneText(s, update);
      if id == 3 { StateShape(s); }
    case ProgressOf(state, percent, detail) => StateRead(s, state, percent, detail);
  }

  lemma StateShape(s: seq<Byte>)
    ensures V.TakeState(s).Some? ==> V.TakeState(s).value.ProgressOf?
  {
  }

  /** Main result: so does the vehicle status proxy; its code for everything unreadable is 4. */
  lemma VehicleReplyExact(id: nat, resp: seq<Byte>, out: V.Outputs, errc: nat)
    requires 1 <= id <= 4 && 0 < errc < U32
    ensures V.ReadReply(id, None) == V.Reply(4, V.Nothing)
    ensures V.ReadReply(id, Some(resp)) == V.Reply(0, out) <==>
      V.OutputsFit(id, out) && [0, 0, 0, 0] + V.EncodeOutputs(out) <= resp
    ensures Be32(errc) <= resp ==> V.ReadReply(id, Some(resp)) == V.Reply(errc, V.Nothing)
    ensures |resp| < 4 || (resp[..4] == [0, 0, 0, 0] && V.DecodeOutputs(id, resp[4..]).None?) ==>
      V.ReadReply(id, Some(resp)) == V.Reply(4, V.Nothing)
  {
    ZeroBytes();
    hide Be32, FromBe32, V.DecodeOutputs, V.EncodeOutputs, V.OutputsFit, V.Digits;
    if Be32(errc) <= resp { BigNumberRead(resp, errc, resp[4..]); }
    if |resp| >= 4 {
      VehicleOutputsExact(id, resp[4..], out);
      BigNumberRead(resp, 0, resp[4..]);
      Behind4([0, 0, 0, 0], V.EncodeOutputs(out), resp);
    }
  }
}
