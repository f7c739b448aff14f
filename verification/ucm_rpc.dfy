/** The UCM service behind its RPC layer: the proxy's requests, the skeleton's replies, and the proof that
    calling through both is calling the service. */
module UcmRpc {
  import opened Bytes
  import opened LeCodec
  import M = UcmModel

  datatype Package = Package(name: Text, version: Text)
  datatype Cluster = Cluster(name: Text, version: Text, state: Text)
  datatype HistoryEntry = HistoryEntry(from: Text, to: Text, result: Text)

  datatype Call =
    | TransferStart(size: int)
    | TransferData(id: Text, block: seq<Byte>, counter: int)
    | TransferExit(id: Text)
    | ProcessSwPackage(id: Text)
    | DeleteTransfer(id: Text)
    | Activate
    | Finish
    | Cancel(id: Text)
    | Rollback
    | RevertProcessedSwPackages
    | GetSwPackages
    | GetSwClusterInfo
    | GetSwClusterChangeInfo
    | GetSwClusterDescription(name: Text)
    | GetSwProcessProgress(id: Text)
    | GetHistory
    | GetId

  /** What a call hands back besides its code. */
  datatype Outputs =
    | Nothing
    | Transfer(id: Text, blockSize: int)
    | Name(text: Text)
    | Packages(packages: seq<Package>)
    | Clusters(clusters: seq<Cluster>)
    | Status(state: Text, percent: int, detail: Text)
    | Entries(entries: seq<HistoryEntry>)

  datatype Reply = Reply(errc: int, out: Outputs)

  function MethodId(c: Call): nat {
    match c
    case TransferStart(_) => 0x01
    case TransferData(_, _, _) => 0x02
    case TransferExit(_) => 0x03
    case ProcessSwPackage(_) => 0x04
    case DeleteTransfer(_) => 0x05
    case Activate => 0x06
    case Finish => 0x07
    case Cancel(_) => 0x08
    case Rollback => 0x09
    case RevertProcessedSwPackages => 0x0A
    case GetSwPackages => 0x0B
    case GetSwClusterInfo => 0x0C
    case GetSwClusterChangeInfo => 0x0D
    case GetSwClusterDescription(_) => 0x0E
    case GetSwProcessProgress(_) => 0x0F
    case GetHistory => 0x10
    case GetId => 0x11
  }

  // Counted lists, row by row.

  function PutRows(rows: seq<seq<Text>>): seq<Byte> {
    if rows == [] then [] else PutTexts(rows[0]) + PutRows(rows[1..])
  }

  function TakeRows(s: seq<Byte>, n: nat, width: nat): Taken<seq<seq<Text>>>
    decreases n
  {
    if n == 0 then Taken([], s) else
    var row := TakeTexts(s, width);
    if row.Short? then Short else
    var rows := TakeRows(row.rest, n - 1, width);
    if rows.Short? then Short else Taken([row.value] + rows.value, rows.rest)
  }

  predicate RowFits(row: seq<Text>, width: nat) {
    |row| == width && forall t :: t in row ==> |t| < U32
  }

  lemma {:induction false} TakePutRows(rows: seq<seq<Text>>, width: nat, rest: seq<Byte>)
    requires forall row :: row in rows ==> RowFits(row, width)
    ensures TakeRows(PutRows(rows) + rest, |rows|, width) == Taken(rows, rest)
  {
    hide PutTexts, TakeTexts;
    if rows == [] {
      assert PutRows(rows) + rest == rest;
    } else {
      assert rows[0] in rows;
      assert PutRows(rows) + rest == PutTexts(rows[0]) + (PutRows(rows[1..]) + rest);
      TakePutTexts(rows[0], PutRows(rows[1..]) + rest);
      TakePutRows(rows[1..], width, rest);
      assert [rows[0]] + rows[1..] == rows;
    }
  }

  /** The skeleton's list loop. */
  method AppendRows(out: seq<Byte>, rows: seq<seq<Text>>) returns (r: seq<Byte>)
    ensures r == out + Le32(|rows| % U32) + PutRows(rows)
  {
    hide PutText, Le32;
    r := out + Le32(|rows| % U32);
    ghost var front := r;
    for i := 0 to |rows|
      invariant r + PutRows(rows[i..]) == front + PutRows(rows)
    {
      ghost var before := r;
      for j := 0 to |rows[i]|
        invariant r + PutTexts(rows[i][j..]) == before + PutTexts(rows[i])
      {
        assert rows[i][j..][1..] == rows[i][j + 1..];
        assert r + (PutText(rows[i][j]) + PutTexts(rows[i][j + 1..]))
            == r + PutText(rows[i][j]) + PutTexts(rows[i][j + 1..]);
        r := AppendText(r, rows[i][j]);
      }
      assert rows[i][|rows[i]|..] == [] && r + [] == r;
      assert rows[i..][1..] == rows[i + 1..];
      assert before + (PutTexts(rows[i]) + PutRows(rows[i + 1..]))
          == before + PutTexts(rows[i]) + PutRows(rows[i + 1..]);
    }
    assert rows[|rows|..] == [] && r + [] == r;
  }

  /** The proxy's list loop: it stops at the first entry that is not there, whatever the count says. */
  method ReadRows(data: seq<Byte>, pos: nat, count: nat, width: nat)
    returns (ok: bool, rows: seq<seq<Text>>, next: nat)
    requires pos <= |data|
    ensures ok ==> next <= |data| && TakeRows(data[pos..], count, width) == Taken(rows, data[next..])
    ensures !ok ==> TakeRows(data[pos..], count, width) == Short
  {
    hide TakeTexts;
    rows, next := [], pos;
    ghost var all := TakeRows(data[pos..], count, width);
    if all.Taken? { assert [] + all.value == all.value; }
    for i := 0 to count
      invariant next <= |data|
      invariant var left := TakeRows(data[next..], count - i, width);
        all == if left.Short? then Short else Taken(rows + left.value, left.rest)
    {
      var row;
      ghost var left := TakeRows(data[next..], count - i, width);
      ok, row, next := ReadTexts(data, next, width);
      if !ok {
        return false, rows, next;
      }
      ghost var tail := TakeRows(data[next..], count - i - 1, width);
      assert left.Taken? ==> rows + left.value == rows + [row] + tail.value;
      rows := rows + [row];
    }
    assert rows + [] == rows;
    ok := true;
  }

  // Requests.

  function EncodeRequest(c: Call): seq<Byte> {
    match c
    case TransferStart(size) => Le64(size)
    case TransferData(id, block, counter) => PutText(id) + Le64(counter) + PutText(block)
    case TransferExit(id) => PutText(id)
    case ProcessSwPackage(id) => PutText(id)
    case DeleteTransfer(id) => PutText(id)
    case Cancel(id) => PutText(id)
    case GetSwClusterDescription(name) => PutText(name)
    case GetSwProcessProgress(id) => PutText(id)
    case _ => []
  }

  /** A handler that reads one string. */
  function WithText(req: seq<Byte>, make: Text -> Call): Option<Call> {
    var t := TakeText(req);
    if t.Short? then None else Some(make(t.value))
  }

  /** What the handler of a method makes of a request; None if it cannot be read. */
  function DecodeRequest(methodId: nat, req: seq<Byte>): Option<Call> {
    if methodId == 0x01 then
      var size := TakeU64(req);
      if size.Short? then None else Some(TransferStart(size.value))
    else if methodId == 0x02 then
      var id := TakeText(req);
      if id.Short? then None else
      var counter := TakeU64(id.rest);
      if counter.Short? then None else
      var block := TakeText(counter.rest);
      if block.Short? then None else Some(TransferData(id.value, block.value, counter.value))
    else if methodId == 0x03 then WithText(req, t => TransferExit(t))
    else if methodId == 0x04 then WithText(req, t => ProcessSwPackage(t))
    else if methodId == 0x05 then WithText(req, t => DeleteTransfer(t))
    else if methodId == 0x06 then Some(Activate)
    else if methodId == 0x07 then Some(Finish)
    else if methodId == 0x08 then WithText(req, t => Cancel(t))
    else if methodId == 0x09 then Some(Rollback)
    else if methodId == 0x0A then Some(RevertProcessedSwPackages)
    else if methodId == 0x0B then Some(GetSwPackages)
    else if methodId == 0x0C then Some(GetSwClusterInfo)
    else if methodId == 0x0D then Some(GetSwClusterChangeInfo)
    else if methodId == 0x0E then WithText(req, t => GetSwClusterDescription(t))
    else if methodId == 0x0F then WithText(req, t => GetSwProcessProgress(t))
    else if methodId == 0x10 then Some(GetHistory)
    else if methodId == 0x11 then Some(GetId)
    else None
  }

  /** The proxy's encoders. */
  method BuildRequest(c: Call) returns (req: seq<Byte>)
    ensures req == EncodeRequest(c)
  {
    hide PutText, Le64;
    req := [];
    match c
    case TransferStart(size) => req := req + Le64(size);
    case TransferData(id, block, counter) =>
      req := AppendText(req, id);
      req := req + Le64(counter);
      req := AppendText(req, block);
      assert [] + PutText(id) == PutText(id);
    case TransferExit(id) => req := AppendText(req, id);
    case ProcessSwPackage(id) => req := AppendText(req, id);
    case DeleteTransfer(id) => req := AppendText(req, id);
    case Cancel(id) => req := AppendText(req, id);
    case GetSwClusterDescription(name) => req := AppendText(req, name);
    case GetSwProcessProgress(id) => req := AppendText(req, id);
    case _ =>
  }

  /** The handlers' decoders: one position moves over the request. */
  method ReadRequest(methodId: nat, req: seq<Byte>) returns (c: Option<Call>)
    ensures c == DecodeRequest(methodId, req)
  {
    hide TakeText, TakeU64;
    assert req[0..] == req;
    var ok, pos;
    if methodId == 0x01 {
      var size;
      ok, size, pos := ReadU64(req, 0);
      return if ok then Some(TransferStart(size)) else None;
    }
    if methodId in {0x02, 0x03, 0x04, 0x05, 0x08, 0x0E, 0x0F} {
      var text;
      ok, text, pos := ReadText(req, 0);
      if !ok { return None; }
      if methodId == 0x02 {
        var counter, block;
        ok, counter, pos := ReadU64(req, pos);
        if !ok { return None; }
        ok, block, pos := ReadText(req, pos);
        return if ok then Some(TransferData(text, block, counter)) else None;
      }
      return Some(
        if methodId == 0x03 then TransferExit(text)
        else if methodId == 0x04 then ProcessSwPackage(text)
        else if methodId == 0x05 then DeleteTransfer(text)
        else if methodId == 0x08 then Cancel(text)
        else if methodId == 0x0E then GetSwClusterDescription(text)
        else GetSwProcessProgress(text));
    }
    return
      if methodId == 0x06 then Some(Activate)
      else if methodId == 0x07 then Some(Finish)
      else if methodId == 0x09 then Some(Rollback)
      else if methodId == 0x0A then Some(RevertProcessedSwPackages)
      else if methodId == 0x0B then Some(GetSwPackages)
      else if methodId == 0x0C then Some(GetSwClusterInfo)
      else if methodId == 0x0D then Some(GetSwClusterChangeInfo)
      else if methodId == 0x10 then Some(GetHistory)
      else if methodId == 0x11 then Some(GetId)
      else None;
  }

  predicate RequestFits(c: Call) {
    match c
    case TransferStart(size) => 0 <= size < U64
    case TransferData(id, block, counter) => |id| < U32 && |block| < U32 && 0 <= counter < U64
    case TransferExit(id) => |id| < U32
    case ProcessSwPackage(id) => |id| < U32
    case DeleteTransfer(id) => |id| < U32
    case Cancel(id) => |id| < U32
    case GetSwClusterDescription(name) => |name| < U32
    case GetSwProcessProgress(id) => |id| < U32
    case _ => true
  }

  lemma RequestRoundTrip(c: Call)
    requires RequestFits(c)
    ensures DecodeRequest(MethodId(c), EncodeRequest(c)) == Some(c)
  {
    var req := EncodeRequest(c);
    hide PutText, TakeText, TakeU64, Le64;
    assert req + [] == req;
    match c
    case TransferStart(size) => TakePutU64(size, []);
    case TransferData(id, block, counter) =>
      assert req == PutText(id) + (Le64(counter) + PutText(block));
      TakeTextExact(req, id, Le64(counter) + PutText(block));
      TakePutU64(counter, PutText(block));
      assert PutText(block) + [] == PutText(block);
      TakeTextExact(PutText(block), block, []);
    case TransferExit(id) => TakeTextExact(req, id, []);
    case ProcessSwPackage(id) => TakeTextExact(req, id, []);
    case DeleteTransfer(id) => TakeTextExact(req, id, []);
    case Cancel(id) => TakeTextExact(req, id, []);
    case GetSwClusterDescription(name) => TakeTextExact(req, name, []);
    case GetSwProcessProgress(id) => TakeTextExact(req, id, []);
    case _ =>
  }

  // Replies.

  /** The kind of outputs a method has. */
  datatype Kind = NoOutput | TransferOutput | NameOutput | PackageList | ClusterList | StatusOutput | EntryList

  function KindOf(methodId: nat): Kind {
    if methodId == 0x01 then TransferOutput
    else if methodId == 0x0B then PackageList
    else if methodId == 0x0C || methodId == 0x0D then ClusterList
    else if methodId == 0x0E || methodId == 0x11 then NameOutput
    else if methodId == 0x0F then StatusOutput
    else if methodId == 0x10 then EntryList
    else NoOutput
  }

  function PackageRows(ps: seq<Package>): seq<seq<Text>> {
    seq(|ps|, i requires 0 <= i < |ps| => [ps[i].name, ps[i].version])
  }

  function ClusterRows(cs: seq<Cluster>): seq<seq<Text>> {
    seq(|cs|, i requires 0 <= i < |cs| => [cs[i].name, cs[i].version, cs[i].state])
  }

  function EntryRows(es: seq<HistoryEntry>): seq<seq<Text>> {
    seq(|es|, i requires 0 <= i < |es| => [es[i].from, es[i].to, es[i].result])
  }

  function EncodeOutputs(out: Outputs): seq<Byte> {
    match out
    case Nothing => []
    case Transfer(id, blockSize) => PutText(id) + Le32(blockSize % U32)
    case Name(text) => PutText(text)
    case Packages(ps) => Le32(|ps| % U32) + PutRows(PackageRows(ps))
    case Clusters(cs) => Le32(|cs| % U32) + PutRows(ClusterRows(cs))
    case Status(state, percent, detail) => PutText(state) + Le32(percent % U32) + PutText(detail)
    case Entries(es) => Le32(|es| % U32) + PutRows(EntryRows(es))
  }

  function ToInt32(v: nat): int {
    if v < 0x8000_0000 then v else v - U32
  }

  lemma {:induction false} TakeRowsWidth(s: seq<Byte>, n: nat, width: nat)
    requires TakeRows(s, n, width).Taken?
    ensures |TakeRows(s, n, width).value| == n
    ensures forall i :: 0 <= i < n ==> |TakeRows(s, n, width).value[i]| == width
    decreases n
  {
    if n > 0 {
      TakeRowsWidth(TakeTexts(s, width).rest, n - 1, width);
    }
  }

  function ListOutputs(kind: Kind, rows: seq<seq<Text>>): Option<Outputs>
    requires kind == PackageList ==> forall i :: 0 <= i < |rows| ==> |rows[i]| == 2
    requires kind == ClusterList || kind == EntryList ==> forall i :: 0 <= i < |rows| ==> |rows[i]| == 3
  {
    match kind
    case PackageList => Some(Packages(seq(|rows|, i requires 0 <= i < |rows| => Package(rows[i][0], rows[i][1]))))
    case ClusterList =>
      Some(Clusters(seq(|rows|, i requires 0 <= i < |rows| => Cluster(rows[i][0], rows[i][1], rows[i][2]))))
    case EntryList =>
      Some(Entries(seq(|rows|, i requires 0 <= i < |rows| => HistoryEntry(rows[i][0], rows[i][1], rows[i][2]))))
    case _ => None
  }

  function DecodeOutputs(kind: Kind, s: seq<Byte>): Option<Outputs> {
    match kind
    case NoOutput => Some(Nothing)
    case TransferOutput =>
      var id := TakeText(s);
      if id.Short? then None else
      var size := TakeU32(id.rest);
      if size.Short? then None else Some(Transfer(id.value, size.value))
    case NameOutput =>
      var text := TakeText(s);
      if text.Short? then None else Some(Name(text.value))
    case StatusOutput =>
      var state := TakeText(s);
      if state.Short? then None else
      var percent := TakeU32(state.rest);
      if percent.Short? then None else
      var detail := TakeText(percent.rest);
      if detail.Short? then None else Some(Status(state.value, ToInt32(percent.value), detail.value))
    case _ =>
      var n := TakeU32(s);
      if n.Short? then None else
      var width := if kind == PackageList then 2 else 3;
      var rows := TakeRows(n.rest, n.value, width);
      if rows.Short? then None else
      TakeRowsWidth(n.rest, n.value, width);
      ListOutputs(kind, rows.value)
  }

  /** A reply's outputs are those of its method, and every length and number fits its field. */
  predicate OutputsFit(kind: Kind, out: Outputs) {
    match out
    case Nothing => kind == NoOutput
    case Transfer(id, blockSize) => kind == TransferOutput && |id| < U32 && 0 <= blockSize < U32
    case Name(text) => kind == NameOutput && |text| < U32
    case Packages(ps) =>
      kind == PackageList && |ps| < U32 && (forall p :: p in ps ==> |p.name| < U32 && |p.version| < U32)
    case Clusters(cs) =>
      kind == ClusterList && |cs| < U32 &&
      (forall c :: c in cs ==> |c.name| < U32 && |c.version| < U32 && |c.state| < U32)
    case Status(state, percent, detail) =>
      kind == StatusOutput && |state| < U32 && -0x8000_0000 <= percent < 0x8000_0000 && |detail| < U32
    case Entries(es) =>
      kind == EntryList && |es| < U32 && (forall e :: e in es ==> |e.from| < U32 && |e.to| < U32 && |e.result| < U32)
  }

  lemma ListRoundTrip(rows: seq<seq<Text>>, width: nat)
    requires |rows| < U32 && forall row :: row in rows ==> RowFits(row, width)
    ensures var s := Le32(|rows|) + PutRows(rows);
      TakeU32(s) == Taken(|rows|, PutRows(rows)) && TakeRows(PutRows(rows), |rows|, width) == Taken(rows, [])
  {
    hide PutTexts, TakeTexts, Le32, TakeU32;
    TakePutU32(|rows|, PutRows(rows));
    TakePutRows(rows, width, []);
    assert PutRows(rows) + [] == PutRows(rows);
  }

  lemma OutputsRoundTrip(kind: Kind, out: Outputs)
    requires OutputsFit(kind, out)
    ensures DecodeOutputs(kind, EncodeOutputs(out)) == Some(out)
  {
    hide PutText, TakeText, Le32, TakeU32, PutRows, TakeRows;
    var s := EncodeOutputs(out);
    match out
    case Nothing =>
    case Transfer(id, blockSize) =>
      TakeTextExact(s, id, Le32(blockSize));
      TakePutU32(blockSize, []);
      assert Le32(blockSize) + [] == Le32(blockSize);
    case Name(text) =>
      assert s + [] == s;
      TakeTextExact(s, text, []);
    case Packages(ps) =>
      ListRoundTrip(PackageRows(ps), 2);
      assert ListOutputs(kind, PackageRows(ps)).value.packages == ps;
    case Clusters(cs) =>
      ListRoundTrip(ClusterRows(cs), 3);
      assert ListOutputs(kind, ClusterRows(cs)).value.clusters == cs;
    case Entries(es) =>
      ListRoundTrip(EntryRows(es), 3);
      assert ListOutputs(kind, EntryRows(es)).value.entries == es;
    case Status(state, percent, detail) =>
      var p := percent % U32;
      assert s == PutText(state) + (Le32(p) + PutText(detail));
      TakeTextExact(s, state, Le32(p) + PutText(detail));
      TakePutU32(p, PutText(detail));
      assert PutText(detail) + [] == PutText(detail);
      TakeTextExact(PutText(detail), detail, []);
  }

  // The two ends together.

  /** The skeleton: a request that cannot be read does not reach the service. */
  function Skeleton<S>(serve: (S, Call) -> (S, Reply), s: S, methodId: nat, req: seq<Byte>): (S, seq<Byte>) {
    var c := DecodeRequest(methodId, req);
    if c.None? then (s, Le32(M.OPERATION_NOT_PERMITTED)) else
    var (t, reply) := serve(s, c.value);
    (t, Le32(reply.errc % U32) + if reply.errc == M.SUCCESS then EncodeOutputs(reply.out) else [])
  }

  /** The proxy's reading of a response; None is a transport that delivered nothing. */
  function ReadReply(methodId: nat, resp: Option<seq<Byte>>): Reply {
    if resp.None? then Reply(M.OPERATION_NOT_PERMITTED, Nothing) else
    var errc := TakeU32(resp.value);
    if errc.Short? then Reply(M.OPERATION_NOT_PERMITTED, Nothing)
    else if errc.value != M.SUCCESS then Reply(errc.value, Nothing)
    else
      var out := DecodeOutputs(KindOf(methodId), errc.rest);
      if out.None? then Reply(M.OPERATION_NOT_PERMITTED, Nothing) else Reply(M.SUCCESS, out.value)
  }

  /** What a handler writes: the code and, on success, the outputs. */
  method BuildResponse(reply: Reply) returns (resp: seq<Byte>)
    ensures resp == Le32(reply.errc % U32) + if reply.errc == M.SUCCESS then EncodeOutputs(reply.out) else []
  {
    hide PutText, PutRows, Le32;
    resp := Le32(reply.errc % U32);
    if reply.errc != M.SUCCESS {
      return;
    }
    ghost var front := resp;
    match reply.out
    case Nothing =>
    case Transfer(id, blockSize) =>
      resp := AppendText(resp, id);
      resp := resp + Le32(blockSize % U32);
      assert resp == front + (PutText(id) + Le32(blockSize % U32));
    case Name(text) => resp := AppendText(resp, text);
    case Packages(ps) => resp := AppendRows(resp, PackageRows(ps));
    case Clusters(cs) => resp := AppendRows(resp, ClusterRows(cs));
    case Entries(es) => resp := AppendRows(resp, EntryRows(es));
    case Status(state, percent, detail) =>
      resp := AppendText(resp, state);
      resp := resp + Le32(percent % U32);
      resp := AppendText(resp, detail);
      assert resp == front + (PutText(state) + Le32(percent % U32) + PutText(detail));
  }

  /** The proxy's decoders: one position moves over the response. */
  method ReadResponse(methodId: nat, resp: Option<seq<Byte>>) returns (reply: Reply)
    ensures reply == ReadReply(methodId, resp)
  {
    hide TakeU32, DecodeOutputs, KindOf;
    if resp.None? {
      return Reply(M.OPERATION_NOT_PERMITTED, Nothing);
    }
    var data := resp.value;
    assert data[0..] == data;
    var ok, errc, pos := ReadU32(data, 0);
    if !ok {
      return Reply(M.OPERATION_NOT_PERMITTED, Nothing);
    }
    if errc != M.SUCCESS {
      return Reply(errc, Nothing);
    }
    var out := ReadOutputs(KindOf(methodId), data, pos);
    return if out.Some? then Reply(M.SUCCESS, out.value) else Reply(M.OPERATION_NOT_PERMITTED, Nothing);
  }

  method ReadOutputs(kind: Kind, data: seq<Byte>, start: nat) returns (out: Option<Outputs>)
    requires start <= |data|
    ensures out == DecodeOutputs(kind, data[start..])
  {
    hide TakeU32, TakeText, TakeRows;
    var ok, pos;
    match kind
    case NoOutput => out := Some(Nothing);
    case TransferOutput =>
      var id, size;
      ok, id, pos := ReadText(data, start);
      if !ok { return None; }
      ok, size, pos := ReadU32(data, pos);
      out := if ok then Some(Transfer(id, size)) else None;
    case NameOutput =>
      var text;
      ok, text, pos := ReadText(data, start);
      out := if ok then Some(Name(text)) else None;
    case StatusOutput =>
      var state, percent, detail;
      ok, state, pos := ReadText(data, start);
      if !ok { return None; }
      ok, percent, pos := ReadU32(data, pos);
      if !ok { return None; }
      ok, detail, pos := ReadText(data, pos);
      out := if ok then Some(Status(state, ToInt32(percent), detail)) else None;
    case _ =>
      var count, rows;
      ok, count, pos := ReadU32(data, start);
      if !ok { return None; }
      ghost var entries := data[pos..];
      ok, rows, pos := ReadRows(data, pos, count, if kind == PackageList then 2 else 3);
      if !ok { return None; }
      TakeRowsWidth(entries, count, if kind == PackageList then 2 else 3);
      out := ListOutputs(kind, rows);
  }

  /** Calling through proxy, wire and skeleton. */
  function Through<S>(serve: (S, Call) -> (S, Reply), s: S, c: Call): (S, Reply) {
    var (t, resp) := Skeleton(serve, s, MethodId(c), EncodeRequest(c));
    (t, ReadReply(MethodId(c), Some(resp)))
  }

  /** Main result: for every service, state and call whose values fit their fields, the remote call
      leaves the service in the same state and brings back the same code and, on success, the same
      outputs as calling it directly. */
  lemma Transparent<S>(serve: (S, Call) -> (S, Reply), s: S, c: Call)
    requires RequestFits(c)
    requires var reply := serve(s, c).1;
      0 <= reply.errc < U32 && (reply.errc == M.SUCCESS ==> OutputsFit(KindOf(MethodId(c)), reply.out))
    ensures var (t, reply) := serve(s, c);
      Through(serve, s, c) == (t, if reply.errc == M.SUCCESS then reply else Reply(reply.errc, Nothing))
  {
    hide EncodeRequest, DecodeRequest, RequestFits, MethodId, EncodeOutputs, DecodeOutputs, OutputsFit, KindOf, Le32,
      TakeU32;
    RequestRoundTrip(c);
    var reply := serve(s, c).1;
    var body := if reply.errc == M.SUCCESS then EncodeOutputs(reply.out) else [];
    TakePutU32(reply.errc, body);
    if reply.errc == M.SUCCESS {
      OutputsRoundTrip(KindOf(MethodId(c)), reply.out);
    }
  }

  /** A client's calls in order, made directly and made through the wire, with their answers. */
  function DirectAll<S>(serve: (S, Call) -> (S, Reply), s: S, calls: seq<Call>): (S, seq<Reply>) {
    if calls == [] then (s, []) else
    var (t, reply) := serve(s, calls[0]);
    var (u, replies) := DirectAll(serve, t, calls[1..]);
    (u, [reply] + replies)
  }

  function ThroughAll<S>(serve: (S, Call) -> (S, Reply), s: S, calls: seq<Call>): (S, seq<Reply>) {
    if calls == [] then (s, []) else
    var (t, reply) := Through(serve, s, calls[0]);
    var (u, replies) := ThroughAll(serve, t, calls[1..]);
    (u, [reply] + replies)
  }

  /** Every value of the conversation fits its field, and a refusal carries no outputs. */
  predicate ConversationFits<S>(serve: (S, Call) -> (S, Reply), s: S, calls: seq<Call>) {
    calls == [] ||
    var (t, reply) := serve(s, calls[0]);
    && RequestFits(calls[0])
    && 0 <= reply.errc < U32
    && (if reply.errc == M.SUCCESS then OutputsFit(KindOf(MethodId(calls[0])), reply.out) else reply.out == Nothing)
    && ConversationFits(serve, t, calls[1..])
  }

  /** Main result: a whole conversation with the service goes the same way remotely as directly. */
  lemma {:induction false} ConversationTransparent<S>(serve: (S, Call) -> (S, Reply), s: S, calls: seq<Call>)
    requires ConversationFits(serve, s, calls)
    ensures ThroughAll(serve, s, calls) == DirectAll(serve, s, calls)
    decreases |calls|
  {
    hide Through, RequestFits, OutputsFit, KindOf, MethodId;
    if calls != [] {
      Transparent(serve, s, calls[0]);
      ConversationTransparent(serve, serve(s, calls[0]).0, calls[1..]);
    }
  }

  /** A request that is no encoding of any call leaves the service alone and is answered as not permitted. */
  lemma Unreadable<S>(serve: (S, Call) -> (S, Reply), s: S, methodId: nat, req: seq<Byte>)
    requires DecodeRequest(methodId, req).None?
    ensures var (t, resp) := Skeleton(serve, s, methodId, req);
      t == s && ReadReply(methodId, Some(resp)) == Reply(M.OPERATION_NOT_PERMITTED, Nothing)
  {
    Le32RoundTrip(M.OPERATION_NOT_PERMITTED);
    TakePutU32(M.OPERATION_NOT_PERMITTED, []);
    assert Le32(M.OPERATION_NOT_PERMITTED) + [] == Le32(M.OPERATION_NOT_PERMITTED);
    hide Le32, DecodeRequest, TakeU32;
  }
}
