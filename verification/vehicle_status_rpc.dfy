/** The vehicle-status service behind its big-endian RPC layer: proxy and skeleton together are the
    service, and a state notification arrives as it was sent. */
module VehicleStatusRpc {
  import opened Bytes

  // The big-endian codec.

  /** The value of a run of bytes, most significant first. */
  function Value(s: seq<Byte>): nat {
    if s == [] then 0 else Value(s[..|s| - 1]) * 256 + s[|s| - 1]
  }

  /** The n lowest base-256 digits of v, most significant first. */
  function Digits(v: nat, n: nat): (r: seq<Byte>)
    ensures |r| == n
  {
    if n == 0 then [] else Digits(v / 256, n - 1) + [v % 256]
  }

  function Power(n: nat): (p: nat)
    ensures p > 0
  {
    if n == 0 then 1 else 256 * Power(n - 1)
  }

  lemma {:induction false} ValueDigits(v: nat, n: nat)
    requires v < Power(n)
    ensures Value(Digits(v, n)) == v
    decreases n
  {
    if n > 0 {
      ValueDigits(v / 256, n - 1);
      assert Digits(v, n)[..n - 1] == Digits(v / 256, n - 1);
    }
  }

  lemma DivDiv(v: nat, p: nat)
    requires p > 0
    ensures v / 256 / p == v / (256 * p)
  {
    var q, r := v / 256 / p, v / 256 % p;
    assert v == 256 * (q * p + r) + v % 256;
    assert v == (256 * p) * q + (256 * r + v % 256);
    assert 256 * r + v % 256 < 256 * p;
    DivUnique(v, 256 * p, q, 256 * r + v % 256);
  }

  lemma MulStep(d: nat, a: nat, b: nat)
    requires a < b
    ensures d * a + d <= d * b
    decreases b
  {
    if b > a + 1 {
      MulStep(d, a, b - 1);
    }
    assert d * b == d * (b - 1) + d;
  }

  lemma DivUnique(v: nat, d: nat, q: nat, r: nat)
    requires d > 0 && v == d * q + r && r < d
    ensures v / d == q
  {
    var q', r' := v / d, v % d;
    assert v == d * q' + r';
    if q < q' {
      MulStep(d, q, q');
    } else if q' < q {
      MulStep(d, q', q);
    }
  }

  /** Digit k is what a shift by the digits below it brings to the bottom. */
  lemma {:induction false} DigitAt(v: nat, n: nat, k: nat)
    requires k < n
    ensures Digits(v, n)[k] == v / Power(n - 1 - k) % 256
    decreases n
  {
    if k < n - 1 {
      DigitAt(v / 256, n - 1, k);
      DivDiv(v, Power(n - 2 - k));
    }
  }

  function PutText(t: Text): seq<Byte> {
    Be32(|t| % U32) + t
  }

  function TakeByte(s: seq<Byte>): Taken<Byte> {
    if s == [] then Short else Taken(s[0], s[1..])
  }

  function TakeU32(s: seq<Byte>): (r: Taken<nat>)
    ensures r.Taken? ==> r.value < U32
  {
    if |s| < 4 then Short else Taken(FromBe32(s[..4]), s[4..])
  }

  function TakeU64(s: seq<Byte>): Taken<nat> {
    if |s| < 8 then Short else Taken(Value(s[..8]), s[8..])
  }

  function TakeText(s: seq<Byte>): Taken<Text> {
    var n := TakeU32(s);
    if n.Short? || |n.rest| < n.value then Short else Taken(n.rest[..n.value], n.rest[n.value..])
  }

  lemma TakePutU32(v: nat, rest: seq<Byte>)
    requires v < U32
    ensures TakeU32(Be32(v) + rest) == Taken(v, rest)
  {
    Be32RoundTrip(v);
    assert (Be32(v) + rest)[..4] == Be32(v);
  }

  lemma PowerEight()
    ensures Power(8) == U64
  {
    assert Power(4) == U32;
    assert Power(6) == 0x1_0000 * U32;
  }

  lemma TakePutU64(v: nat, rest: seq<Byte>)
    requires v < U64
    ensures TakeU64(Digits(v, 8) + rest) == Taken(v, rest)
  {
    PowerEight();
    ValueDigits(v, 8);
    assert (Digits(v, 8) + rest)[..8] == Digits(v, 8);
  }

  lemma TakePutText(t: Text, rest: seq<Byte>)
    requires |t| < U32
    ensures TakeText(PutText(t) + rest) == Taken(t, rest)
  {
    hide Be32, TakeU32;
    assert PutText(t) + rest == Be32(|t|) + (t + rest);
    TakePutU32(|t|, t + rest);
  }

  /** Pushes the eight bytes of a value, shifting by 56, 48 and so on down to 0. */
  method AppendU64(out: seq<Byte>, v: nat) returns (r: seq<Byte>)
    ensures r == out + Digits(v, 8)
  {
    hide Digits, Power;
    r := out;
    for k := 0 to 8
      invariant r == out + Digits(v, 8)[..k]
    {
      DigitAt(v, 8, k);
      r := r + [v / Power(7 - k) % 256];
    }
    assert Digits(v, 8)[..8] == Digits(v, 8);
  }

  /** Reads eight bytes, each shifting the value up by one byte. */
  method ReadU64(input: seq<Byte>, pos: nat) returns (ok: bool, v: nat, next: nat)
    requires pos <= |input|
    ensures ok ==> next <= |input| && TakeU64(input[pos..]) == Taken(v, input[next..])
    ensures !ok ==> TakeU64(input[pos..]) == Short && next == pos
  {
    if pos + 8 > |input| {
      return false, 0, pos;
    }
    v := 0;
    for i := 0 to 8
      invariant v == Value(input[pos..pos + i])
    {
      assert input[pos..pos + i + 1][..i] == input[pos..pos + i];
      v := v * 256 + input[pos + i];
    }
    assert input[pos..][..8] == input[pos..pos + 8] && input[pos..][8..] == input[pos + 8..];
    return true, v, pos + 8;
  }

  method AppendText(out: seq<Byte>, t: Text) returns (r: seq<Byte>)
    ensures r == out + PutText(t)
  {
    r := out + Be32(|t| % U32);
    r := r + t;
    assert r == out + (Be32(|t| % U32) + t);
  }

  method ReadU32(input: seq<Byte>, pos: nat) returns (ok: bool, v: nat, next: nat)
    requires pos <= |input|
    ensures ok ==> next <= |input| && TakeU32(input[pos..]) == Taken(v, input[next..])
    ensures !ok ==> TakeU32(input[pos..]) == Short && next == pos
  {
    if pos + 4 > |input| {
      return false, 0, pos;
    }
    assert input[pos..][..4] == input[pos..pos + 4] && input[pos..][4..] == input[pos + 4..];
    return true, FromBe32(input[pos..pos + 4]), pos + 4;
  }

  method ReadText(input: seq<Byte>, pos: nat) returns (ok: bool, t: Text, next: nat)
    requires pos <= |input|
    ensures ok ==> next <= |input| && TakeText(input[pos..]) == Taken(t, input[next..])
    ensures !ok ==> TakeText(input[pos..]) == Short
  {
    var len;
    ok, len, next := ReadU32(input, pos);
    if !ok || next + len > |input| {
      return false, [], next;
    }
    assert input[next..][..len] == input[next..next + len] && input[next..][len..] == input[next + len..];
    return true, input[next..next + len], next + len;
  }

  // Calls and replies.

  const SUCCESS: nat := 0
  const INVALID_ARGUMENT: nat := 1
  const INTERNAL_ERROR: nat := 4

  datatype Call =
    | GetStatus
    | StartUpdate(version: Text, packageSize: nat, sha256: Text)
    | GetProgress(updateId: Text)
    | Rollback

  datatype Outputs =
    | Nothing
    | Status(version: Text, slot: Text, state: Byte)
    | Started(updateId: Text)
    | ProgressOf(state: Byte, percent: nat, detail: Text)

  datatype Reply = Reply(errc: nat, out: Outputs)

  function MethodId(c: Call): nat {
    match c
    case GetStatus => 1
    case StartUpdate(_, _, _) => 2
    case GetProgress(_) => 3
    case Rollback => 4
  }

  function EncodeRequest(c: Call): seq<Byte> {
    match c
    case StartUpdate(version, size, sha256) => PutText(version) + Digits(size, 8) + PutText(sha256)
    case GetProgress(id) => PutText(id)
    case _ => []
  }

  function DecodeRequest(id: nat, req: seq<Byte>): Option<Call> {
    if id == 1 then Some(GetStatus)
    else if id == 2 then
      var version := TakeText(req);
      if version.Short? then None else
      var size := TakeU64(version.rest);
      if size.Short? then None else
      var sha256 := TakeText(size.rest);
      if sha256.Short? then None else Some(StartUpdate(version.value, size.value, sha256.value))
    else if id == 3 then
      var updateId := TakeText(req);
      if updateId.Short? then None else Some(GetProgress(updateId.value))
    else if id == 4 then Some(Rollback)
    else None
  }

  /** A state with its percentage and detail, as in a progress reply and in a notification. */
  function PutState(state: Byte, percent: nat, detail: Text): seq<Byte> {
    [state] + Be32(percent % U32) + PutText(detail)
  }

  function TakeState(s: seq<Byte>): Option<Outputs> {
    var state := TakeByte(s);
    if state.Short? then None else
    var percent := TakeU32(state.rest);
    if percent.Short? then None else
    var detail := TakeText(percent.rest);
    if detail.Short? then None else Some(ProgressOf(state.value, percent.value, detail.value))
  }

  function EncodeOutputs(out: Outputs): seq<Byte> {
    match out
    case Nothing => []
    case Status(version, slot, state) => PutText(version) + PutText(slot) + [state]
    case Started(id) => PutText(id)
    case ProgressOf(state, percent, detail) => PutState(state, percent, detail)
  }

  function DecodeOutputs(id: nat, s: seq<Byte>): Option<Outputs> {
    if id == 1 then
      var version := TakeText(s);
      if version.Short? then None else
      var slot := TakeText(version.rest);
      if slot.Short? then None else
      var state := TakeByte(slot.rest);
      if state.Short? then None else Some(Status(version.value, slot.value, state.value))
    else if id == 2 then
      var updateId := TakeText(s);
      if updateId.Short? then None else Some(Started(updateId.value))
    else if id == 3 then TakeState(s)
    else Some(Nothing)
  }

  // The proxy's and the skeleton's halves as the code runs them: appends, and one position that moves on.

  method BuildRequest(c: Call) returns (req: seq<Byte>)
    ensures req == EncodeRequest(c)
  {
    hide PutText, Digits;
    req := [];
    match c
    case StartUpdate(version, size, sha256) =>
      req := AppendText(req, version);
      req := AppendU64(req, size);
      req := AppendText(req, sha256);
      assert [] + PutText(version) == PutText(version);
    case GetProgress(id) => req := AppendText(req, id);
    case _ =>
  }

  method ReadRequest(id: nat, req: seq<Byte>) returns (c: Option<Call>)
    ensures c == DecodeRequest(id, req)
  {
    hide TakeText, TakeU64;
    assert req[0..] == req;
    var ok, text, pos;
    if id == 1 {
      return Some(GetStatus);
    }
    if id == 2 {
      var size, sha256;
      ok, text, pos := ReadText(req, 0);
      if !ok { return None; }
      ok, size, pos := ReadU64(req, pos);
      if !ok { return None; }
      ok, sha256, pos := ReadText(req, pos);
      return if ok then Some(StartUpdate(text, size, sha256)) else None;
    }
    if id == 3 {
      ok, text, pos := ReadText(req, 0);
      return if ok then Some(GetProgress(text)) else None;
    }
    return if id == 4 then Some(Rollback) else None;
  }

  /** Appends a state, its percentage and its detail. */
  method AppendState(out: seq<Byte>, state: Byte, percent: nat, detail: Text) returns (r: seq<Byte>)
    ensures r == out + PutState(state, percent, detail)
  {
    hide Be32, PutText;
    r := out + [state];
    r := r + Be32(percent % U32);
    r := AppendText(r, detail);
    assert r == out + ([state] + Be32(percent % U32) + PutText(detail));
  }

  method ReadState(data: seq<Byte>, start: nat) returns (out: Option<Outputs>)
    requires start <= |data|
    ensures out == TakeState(data[start..])
  {
    hide TakeU32, TakeText;
    if start + 1 > |data| {
      return None;
    }
    assert data[start..][1..] == data[start + 1..];
    var ok, percent, pos := ReadU32(data, start + 1);
    if !ok { return None; }
    var detail;
    ok, detail, pos := ReadText(data, pos);
    return if ok then Some(ProgressOf(data[start], percent, detail)) else None;
  }

  method BuildResponse(reply: Reply) returns (resp: seq<Byte>)
    ensures resp == Be32(reply.errc % U32) + if reply.errc == SUCCESS then EncodeOutputs(reply.out) else []
  {
    hide PutText, PutState, Be32;
    resp := Be32(reply.errc % U32);
    if reply.errc != SUCCESS {
      return;
    }
    ghost var front := resp;
    match reply.out
    case Nothing =>
    case Status(version, slot, state) =>
      resp := AppendText(resp, version);
      resp := AppendText(resp, slot);
      resp := resp + [state];
      assert resp == front + (PutText(version) + PutText(slot) + [state]);
    case Started(updateId) => resp := AppendText(resp, updateId);
    case ProgressOf(state, percent, detail) => resp := AppendState(resp, state, percent, detail);
  }

  method ReadOutputs(id: nat, data: seq<Byte>, start: nat) returns (out: Option<Outputs>)
    requires start <= |data|
    ensures out == DecodeOutputs(id, data[start..])
  {
    hide TakeText, TakeState;
    var ok, text, pos;
    if id == 1 {
      var slot;
      ok, text, pos := ReadText(data, start);
      if !ok { return None; }
      ok, slot, pos := ReadText(data, pos);
      return if ok && pos < |data| then Some(Status(text, slot, data[pos])) else None;
    }
    if id == 2 {
      ok, text, pos := ReadText(data, start);
      return if ok then Some(Started(text)) else None;
    }
    if id == 3 {
      out := ReadState(data, start);
      return;
    }
    return Some(Nothing);
  }

  method ReadResponse(id: nat, resp: Option<seq<Byte>>) returns (reply: Reply)
    ensures reply == ReadReply(id, resp)
  {
    hide TakeU32, DecodeOutputs;
    if resp.None? {
      return Reply(INTERNAL_ERROR, Nothing);
    }
    var data := resp.value;
    assert data[0..] == data;
    var ok, errc, pos := ReadU32(data, 0);
    if !ok {
      return Reply(INTERNAL_ERROR, Nothing);
    }
    if errc != SUCCESS {
      return Reply(errc, Nothing);
    }
    var out := ReadOutputs(id, data, pos);
    return if out.Some? then Reply(SUCCESS, out.value) else Reply(INTERNAL_ERROR, Nothing);
  }

  predicate RequestFits(c: Call) {
    match c
    case StartUpdate(version, size, sha256) => |version| < U32 && size < U64 && |sha256| < U32
    case GetProgress(id) => |id| < U32
    case _ => true
  }

  predicate OutputsFit(id: nat, out: Outputs) {
    match out
    case Nothing => id == 4
    case Status(version, slot, _) => id == 1 && |version| < U32 && |slot| < U32
    case Started(updateId) => id == 2 && |updateId| < U32
    case ProgressOf(_, percent, detail) => id == 3 && percent < U32 && |detail| < U32
  }

  lemma RequestRoundTrip(c: Call)
    requires RequestFits(c)
    ensures DecodeRequest(MethodId(c), EncodeRequest(c)) == Some(c)
  {
    hide PutText, TakeText, TakeU64, Digits;
    var req := EncodeRequest(c);
    assert req + [] == req;
    match c
    case StartUpdate(version, size, sha256) =>
      assert req == PutText(version) + (Digits(size, 8) + PutText(sha256));
      TakePutText(version, Digits(size, 8) + PutText(sha256));
      TakePutU64(size, PutText(sha256));
      assert PutText(sha256) + [] == PutText(sha256);
      TakePutText(sha256, []);
    case GetProgress(id) => TakePutText(id, []);
    case _ =>
  }

  /** A notification is read back as the state, percentage and detail it was built from. */
  lemma NotificationRoundTrip(state: Byte, percent: nat, detail: Text)
    requires percent < U32 && |detail| < U32
    ensures TakeState(PutState(state, percent, detail)) == Some(ProgressOf(state, percent, detail))
  {
    hide PutText, TakeText, TakeU32, Be32;
    var s := PutState(state, percent, detail);
    assert s == [state] + (Be32(percent) + PutText(detail));
    TakePutU32(percent, PutText(detail));
    assert PutText(detail) + [] == PutText(detail);
    TakePutText(detail, []);
  }

  lemma OutputsRoundTrip(id: nat, out: Outputs)
    requires OutputsFit(id, out)
    ensures DecodeOutputs(id, EncodeOutputs(out)) == Some(out)
  {
    hide PutText, TakeText, PutState, TakeState;
    var s := EncodeOutputs(out);
    assert s + [] == s;
    match out
    case Nothing =>
    case Status(version, slot, state) =>
      assert s == PutText(version) + (PutText(slot) + [state]);
      TakePutText(version, PutText(slot) + [state]);
      TakePutText(slot, [state]);
    case Started(updateId) => TakePutText(updateId, []);
    case ProgressOf(state, percent, detail) => NotificationRoundTrip(state, percent, detail);
  }

  /** The skeleton: a request that cannot be read does not reach the service. */
  function Skeleton<S>(serve: (S, Call) -> (S, Reply), s: S, id: nat, req: seq<Byte>): (S, seq<Byte>) {
    var c := DecodeRequest(id, req);
    if c.None? then (s, Be32(INVALID_ARGUMENT)) else
    var (t, reply) := serve(s, c.value);
    (t, Be32(reply.errc % U32) + if reply.errc == SUCCESS then EncodeOutputs(reply.out) else [])
  }

  /** The proxy's reading of a response; None is a transport that delivered nothing. */
  function ReadReply(id: nat, resp: Option<seq<Byte>>): Reply {
    if resp.None? then Reply(INTERNAL_ERROR, Nothing) else
    var errc := TakeU32(resp.value);
    if errc.Short? then Reply(INTERNAL_ERROR, Nothing)
    else if errc.value != SUCCESS then Reply(errc.value, Nothing)
    else
      var out := DecodeOutputs(id, errc.rest);
      if out.None? then Reply(INTERNAL_ERROR, Nothing) else Reply(SUCCESS, out.value)
  }

  /** Main result: for every service, state and call whose values fit their fields, the remote call
      leaves the service in the same state and brings back the same code and, on success, the same
      outputs as calling it directly. */
  lemma Transparent<S>(serve: (S, Call) -> (S, Reply), s: S, c: Call)
    requires RequestFits(c)
    requires var reply := serve(s, c).1;
      reply.errc < U32 && (reply.errc == SUCCESS ==> OutputsFit(MethodId(c), reply.out))
    ensures var (t, reply) := serve(s, c);
      var (t', resp) := Skeleton(serve, s, MethodId(c), EncodeRequest(c));
      && t' == t
      && ReadReply(MethodId(c), Some(resp)) == if reply.errc == SUCCESS then reply else Reply(reply.errc, Nothing)
  {
    hide EncodeRequest, DecodeRequest, RequestFits, MethodId, EncodeOutputs, DecodeOutputs, OutputsFit, Be32, TakeU32;
    RequestRoundTrip(c);
    var reply := serve(s, c).1;
    TakePutU32(reply.errc, if reply.errc == SUCCESS then EncodeOutputs(reply.out) else []);
    if reply.errc == SUCCESS {
      OutputsRoundTrip(MethodId(c), reply.out);
    }
  }
}
