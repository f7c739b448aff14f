/** Reassembly of DoIP frames from a TCP byte stream: a one-pass reference parser and its laws. */
module DoipStream {
  import opened Bytes
  import opened DoipFrame

  /** What stands at the front of a receive buffer. */
  datatype Front = NeedMore | BadVersion | TooLarge | Complete(frame: Frame)

  function Classify(rx: seq<Byte>): (f: Front)
    ensures f.Complete? ==> Wire(f.frame) && HEADER_SIZE + |f.frame.payload| <= |rx|
  {
    var parsed := ParseHeader(rx);
    if parsed.None? then NeedMore else
    var h := parsed.value;
    if h.version != PROTOCOL_VERSION || h.inverseVersion != 255 - h.version then BadVersion
    else if h.payloadLength > MAX_PAYLOAD_LENGTH then TooLarge
    else if |rx| < HEADER_SIZE + h.payloadLength then NeedMore
    else Complete(Frame(h.payloadType, rx[HEADER_SIZE..HEADER_SIZE + h.payloadLength]))
  }

  predicate Bad(f: Front) {
    f.BadVersion? || f.TooLarge?
  }

  datatype Parsed = Parsed(frames: seq<Frame>, rest: seq<Byte>)

  /** The reference parser: all frames of a stream, and the bytes no frame was cut from. */
  function Parse(s: seq<Byte>): Parsed
    decreases |s|
  {
    match Classify(s)
    case Complete(f) =>
      var tail := Parse(s[HEADER_SIZE + |f.payload|..]);
      Parsed([f] + tail.frames, tail.rest)
    case _ => Parsed([], s)
  }

  function EncodeAll(fs: seq<Frame>): seq<Byte> {
    if fs == [] then [] else Encode(fs[0]) + EncodeAll(fs[1..])
  }

  /** More bytes never change a verdict that has been reached. */
  lemma ClassifyStable(a: seq<Byte>, b: seq<Byte>)
    requires !Classify(a).NeedMore?
    ensures Classify(a + b) == Classify(a)
  {
    assert (a + b)[2..4] == a[2..4] && (a + b)[4..8] == a[4..8];
    if Classify(a).Complete? {
      var n := HEADER_SIZE + FromBe32(a[4..8]);
      assert (a + b)[HEADER_SIZE..n] == a[HEADER_SIZE..n];
    }
  }

  lemma ClassifyEncode(f: Frame, rest: seq<Byte>)
    requires Wire(f)
    ensures Classify(Encode(f) + rest) == Complete(f)
  {
    var s := Encode(f) + rest;
    var n := |f.payload|;
    assert s == HeaderBytes(f.payloadType, n) + (f.payload + rest);
    HeaderRoundTrip(f.payloadType, n, f.payload + rest);
    assert s[HEADER_SIZE..HEADER_SIZE + n] == f.payload;
  }

  /** A complete front is exactly the encoding of its frame. */
  lemma ClassifyOnto(s: seq<Byte>)
    requires Classify(s).Complete?
    ensures s == Encode(Classify(s).frame) + s[HEADER_SIZE + |Classify(s).frame.payload|..]
  {
    var f := Classify(s).frame;
    Be16Onto(s[2..4]);
    Be32Onto(s[4..8]);
    assert s[..2] + s[2..4] + s[4..8] == s[..8];
    assert s[..8] == HeaderBytes(f.payloadType, |f.payload|);
    assert s == s[..8] + s[8..8 + |f.payload|] + s[8 + |f.payload|..];
  }

  /** Cutting the stream anywhere and carrying the leftover over gives the one-pass result. */
  lemma {:induction false} ParseSplit(a: seq<Byte>, b: seq<Byte>)
    ensures Parse(a + b).frames == Parse(a).frames + Parse(Parse(a).rest + b).frames
    ensures Parse(a + b).rest == Parse(Parse(a).rest + b).rest
    decreases |a|
  {
    hide Classify, Encode;
    if Classify(a).Complete? {
      var n := HEADER_SIZE + |Classify(a).frame.payload|;
      ClassifyStable(a, b);
      assert (a + b)[n..] == a[n..] + b;
      ParseSplit(a[n..], b);
    }
  }

  /** The leftover of a parse holds no complete frame, so parsing it again does nothing. */
  lemma {:induction false} ParseRest(s: seq<Byte>)
    ensures !Classify(Parse(s).rest).Complete?
    ensures Parse(Parse(s).rest) == Parsed([], Parse(s).rest)
    decreases |s|
  {
    if Classify(s).Complete? {
      ParseRest(s[HEADER_SIZE + |Classify(s).frame.payload|..]);
    }
  }

  lemma {:induction false} ParseSound(s: seq<Byte>)
    ensures s == EncodeAll(Parse(s).frames) + Parse(s).rest
    ensures forall f :: f in Parse(s).frames ==> Wire(f)
    decreases |s|
  {
    hide Classify, Encode, Wire;
    if Classify(s).Complete? {
      var f := Classify(s).frame;
      var tail := s[HEADER_SIZE + |f.payload|..];
      ClassifyOnto(s);
      ParseSound(tail);
      assert Parse(s).frames[1..] == Parse(tail).frames;
    }
  }

  lemma ParseHead(f: Frame, tail: seq<Byte>)
    requires Wire(f)
    ensures Parse(Encode(f) + tail) == Parsed([f] + Parse(tail).frames, Parse(tail).rest)
  {
    hide Classify, Encode, Wire;
    ClassifyEncode(f, tail);
    assert (Encode(f) + tail)[HEADER_SIZE + |f.payload|..] == tail;
  }

  /** Frames built by the sender come out unchanged and in order, however the stream goes on. */
  lemma {:induction false} ParseComplete(fs: seq<Frame>, rest: seq<Byte>)
    requires forall f :: f in fs ==> Wire(f)
    ensures Parse(EncodeAll(fs) + rest) == Parsed(fs + Parse(rest).frames, Parse(rest).rest)
  {
    hide Classify, Encode, Wire, Parse;
    if fs == [] {
      assert EncodeAll(fs) + rest == rest;
    } else {
      var tail := EncodeAll(fs[1..]) + rest;
      assert EncodeAll(fs) + rest == Encode(fs[0]) + tail;
      ParseHead(fs[0], tail);
      ParseComplete(fs[1..], rest);
      assert [fs[0]] + (fs[1..] + Parse(rest).frames) == fs + Parse(rest).frames;
    }
  }

  /** The parser loses and invents nothing: (fs, rest) is its result for s exactly when s is the
      encoding of the frames fs followed by a rest at whose front no complete frame stands. */
  lemma ParseExact(s: seq<Byte>, fs: seq<Frame>, rest: seq<Byte>)
    ensures Parse(s) == Parsed(fs, rest) <==>
            s == EncodeAll(fs) + rest && !Classify(rest).Complete? && forall f :: f in fs ==> Wire(f)
  {
    hide Classify, Encode, Wire;
    ParseSound(s);
    ParseRest(s);
    if s == EncodeAll(fs) + rest && !Classify(rest).Complete? && forall f :: f in fs ==> Wire(f) {
      ParseComplete(fs, rest);
      assert fs + [] == fs;
    }
  }

  /** Once the leftover starts with a rejected header, no later byte ever yields a frame. */
  lemma BadStays(s: seq<Byte>, more: seq<Byte>)
    requires Bad(Classify(Parse(s).rest))
    ensures Parse(s + more) == Parsed(Parse(s).frames, Parse(s).rest + more)
    ensures Classify(Parse(s + more).rest) == Classify(Parse(s).rest)
  {
    ClassifyStable(Parse(s).rest, more);
    ParseSplit(s, more);
  }
}
