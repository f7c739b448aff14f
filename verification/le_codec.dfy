/** The little-endian wire codec shared by the package manifest and the UCM protocol: u32, u64 and
    length-prefixed strings. Decoders are specified on the bytes that are still to be read. */
module LeCodec {
  import opened Bytes

  function PutText(t: Text): (r: seq<Byte>)
    ensures |r| == 4 + |t|
  {
    Le32(|t| % U32) + t
  }

  function PutTexts(ts: seq<Text>): seq<Byte> {
    if ts == [] then [] else PutText(ts[0]) + PutTexts(ts[1..])
  }

  function TakeU32(s: seq<Byte>): (r: Taken<nat>)
    ensures r.Taken? ==> r.value < U32 && |s| >= 4 && r.rest == s[4..]
  {
    if |s| < 4 then Short else Taken(FromLe32(s[..4]), s[4..])
  }

  function TakeU64(s: seq<Byte>): (r: Taken<nat>)
    ensures r.Taken? ==> r.value < U64
  {
    if |s| < 8 then Short else Taken(FromLe64(s[..8]), s[8..])
  }

  function TakeText(s: seq<Byte>): (r: Taken<Text>)
    ensures r.Taken? ==> |r.value| < U32 && |s| == 4 + |r.value| + |r.rest|
  {
    var n := TakeU32(s);
    if n.Short? || |n.rest| < n.value then Short else Taken(n.rest[..n.value], n.rest[n.value..])
  }

  function TakeTexts(s: seq<Byte>, n: nat): (r: Taken<seq<Text>>)
    ensures r.Taken? ==> |r.value| == n
  {
    if n == 0 then Taken([], s) else
    var t := TakeText(s);
    if t.Short? then Short else
    var ts := TakeTexts(t.rest, n - 1);
    if ts.Short? then Short else Taken([t.value] + ts.value, ts.rest)
  }

  lemma {:induction false} PutTextsBounds(ts: seq<Text>)
    ensures |PutTexts(ts)| >= 4 * |ts|
    ensures forall t :: t in ts ==> |t| <= |PutTexts(ts)|
  {
    if ts != [] {
      PutTextsBounds(ts[1..]);
      assert forall t :: t in ts ==> t == ts[0] || t in ts[1..];
    }
  }

  lemma TakePutU32(v: nat, rest: seq<Byte>)
    requires v < U32
    ensures TakeU32(Le32(v) + rest) == Taken(v, rest)
  {
    Le32RoundTrip(v);
    assert (Le32(v) + rest)[..4] == Le32(v);
  }

  lemma TakePutU64(v: nat, rest: seq<Byte>)
    requires v < U64
    ensures TakeU64(Le64(v) + rest) == Taken(v, rest)
  {
    Le64RoundTrip(v);
    assert (Le64(v) + rest)[..8] == Le64(v);
  }

  /** A decoded u32 stands in the stream as its own encoding. */
  lemma TakeU32Onto(s: seq<Byte>)
    requires TakeU32(s).Taken?
    ensures s == Le32(TakeU32(s).value) + TakeU32(s).rest
  {
    Le32Onto(s[..4]);
    assert s == s[..4] + s[4..];
  }

  /** Reading a string gives (t, rest) exactly when the bytes are t's encoding followed by rest. */
  lemma TakeTextExact(s: seq<Byte>, t: Text, rest: seq<Byte>)
    ensures TakeText(s) == Taken(t, rest) <==> s == PutText(t) + rest && |t| < U32
  {
    hide Le32, FromLe32;
    if TakeText(s) == Taken(t, rest) {
      TakeU32Onto(s);
      assert s[4..] == t + rest;
    }
    if s == PutText(t) + rest && |t| < U32 {
      assert s == Le32(|t|) + (t + rest);
      TakePutU32(|t|, t + rest);
    }
  }

  lemma {:induction false} TakePutTexts(ts: seq<Text>, rest: seq<Byte>)
    requires forall t :: t in ts ==> |t| < U32
    ensures TakeTexts(PutTexts(ts) + rest, |ts|) == Taken(ts, rest)
  {
    hide PutText, TakeText;
    if ts == [] {
      assert PutTexts(ts) + rest == rest;
    } else {
      assert PutTexts(ts) + rest == PutText(ts[0]) + (PutTexts(ts[1..]) + rest);
      TakeTextExact(PutTexts(ts) + rest, ts[0], PutTexts(ts[1..]) + rest);
      TakePutTexts(ts[1..], rest);
      assert [ts[0]] + ts[1..] == ts;
    }
  }

  lemma {:induction false} TakeTextsOnto(s: seq<Byte>, n: nat)
    requires TakeTexts(s, n).Taken?
    ensures s == PutTexts(TakeTexts(s, n).value) + TakeTexts(s, n).rest
    decreases n
  {
    hide PutText, TakeText;
    if n == 0 {
      assert s == [] + s;
    } else {
      var t := TakeText(s);
      TakeTextExact(s, t.value, t.rest);
      TakeTextsOnto(t.rest, n - 1);
      var ts := TakeTexts(t.rest, n - 1);
      assert ([t.value] + ts.value)[1..] == ts.value;
      assert s == PutText(t.value) + (PutTexts(ts.value) + ts.rest);
    }
  }

  /** Appends a string in two steps: its length, cut to 32 bits, and its bytes. */
  method AppendText(out: seq<Byte>, t: Text) returns (r: seq<Byte>)
    ensures r == out + PutText(t)
  {
    r := out + Le32(|t| % U32);
    r := r + t;
    assert r == out + (Le32(|t| % U32) + t);
  }

  // The reading helpers: next is the position behind what was read.

  method ReadU32(input: seq<Byte>, pos: nat) returns (ok: bool, v: nat, next: nat)
    requires pos <= |input|
    ensures ok ==> next <= |input| && TakeU32(input[pos..]) == Taken(v, input[next..])
    ensures !ok ==> TakeU32(input[pos..]) == Short && next == pos
  {
    if pos + 4 > |input| {
      return false, 0, pos;
    }
    assert input[pos..][..4] == input[pos..pos + 4] && input[pos..][4..] == input[pos + 4..];
    return true, FromLe32(input[pos..pos + 4]), pos + 4;
  }

  method ReadU64(input: seq<Byte>, pos: nat) returns (ok: bool, v: nat, next: nat)
    requires pos <= |input|
    ensures ok ==> next <= |input| && TakeU64(input[pos..]) == Taken(v, input[next..])
    ensures !ok ==> TakeU64(input[pos..]) == Short && next == pos
  {
    if pos + 8 > |input| {
      return false, 0, pos;
    }
    assert input[pos..][..8] == input[pos..pos + 8] && input[pos..][8..] == input[pos + 8..];
    return true, FromLe64(input[pos..pos + 8]), pos + 8;
  }

  method ReadText(input: seq<Byte>, pos: nat) returns (ok: bool, t: Text, next: nat)
    requires pos <= |input|
    ensures ok ==> pos + 4 <= next <= |input| && TakeText(input[pos..]) == Taken(t, input[next..])
    ensures !ok ==> TakeText(input[pos..]) == Short
  {
    var len;
    ok, len, next := ReadU32(input, pos);
    if !ok {
      return false, [], next;
    }
    if next + len > |input| {
      return false, [], next;
    }
    assert input[next..][..len] == input[next..next + len] && input[next..][len..] == input[next + len..];
    return true, input[next..next + len], next + len;
  }

  /** A decoded list put behind strings that were decoded before it. */
  function Behind(ts: seq<Text>, left: Taken<seq<Text>>): Taken<seq<Text>> {
    if left.Short? then Short else Taken(ts + left.value, left.rest)
  }

  lemma BehindNothing(left: Taken<seq<Text>>)
    ensures Behind([], left) == left
  {
    if left.Taken? { assert [] + left.value == left.value; }
  }

  lemma BehindDone(ts: seq<Text>, s: seq<Byte>)
    ensures Behind(ts, TakeTexts(s, 0)) == Taken(ts, s)
  {
    assert ts + [] == ts;
  }

  lemma BehindOne(ts: seq<Text>, s: seq<Byte>, n: nat)
    requires n > 0
    ensures Behind(ts, TakeTexts(s, n)) ==
      var t := TakeText(s); if t.Short? then Short else Behind(ts + [t.value], TakeTexts(t.rest, n - 1))
  {
    hide TakeText;
    var t := TakeText(s);
    if t.Taken? {
      var left := TakeTexts(t.rest, n - 1);
      if left.Taken? { assert ts + ([t.value] + left.value) == ts + [t.value] + left.value; }
    }
  }

  /** The counted-list loop. However large the announced count is, it stops at the end of the input:
      every completed turn has read at least four bytes. */
  method ReadTexts(input: seq<Byte>, pos: nat, count: nat) returns (ok: bool, ts: seq<Text>, next: nat)
    requires pos <= |input|
    ensures ok ==> next <= |input| && TakeTexts(input[pos..], count) == Taken(ts, input[next..])
    ensures !ok ==> TakeTexts(input[pos..], count) == Short
    ensures 4 * |ts| <= |input| - pos
  {
    hide TakeText, TakeTexts, Behind;
    ts, next := [], pos;
    var i := 0;
    BehindNothing(TakeTexts(input[pos..], count));
    while i < count
      invariant i <= count && |ts| == i && pos <= next <= |input| && 4 * i <= next - pos
      invariant TakeTexts(input[pos..], count) == Behind(ts, TakeTexts(input[next..], count - i))
    {
      var t;
      BehindOne(ts, input[next..], count - i);
      ok, t, next := ReadText(input, next);
      if !ok {
        return false, ts, next;
      }
      ts := ts + [t];
      i := i + 1;
    }
    BehindDone(ts, input[next..]);
    ok := true;
  }
}
