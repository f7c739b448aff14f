/** Bytes, fixed-width integers and the few sequence helpers the other modules share. */
module Bytes {
  type Byte = b: int | 0 <= b < 256

  /** A std::string: any bytes. */
  type Text = seq<Byte>

  datatype Option<+T> = None | Some(value: T)

  /** A decoded value with the bytes behind it, or too few bytes. */
  datatype Taken<+T> = Short | Taken(value: T, rest: seq<Byte>)

  const U16: int := 0x1_0000
  const U32: int := 0x1_0000_0000
  const U64: int := 0x1_0000_0000_0000_0000

  /** A C++ string literal as the bytes it holds. */
  function Ascii(s: string): (r: seq<Byte>)
    ensures |r| == |s|
  {
    seq(|s|, i requires 0 <= i < |s| => (s[i] as int) % 256)
  }

  // Big-endian integers (network order).

  function Be16(v: int): (r: seq<Byte>)
    ensures |r| == 2
  {
    [v / 256 % 256, v % 256]
  }

  function FromBe16(s: seq<Byte>): (v: nat)
    requires |s| == 2
    ensures v < U16
  {
    (s[0] as int) * 256 + s[1]
  }

  function Be32(v: int): (r: seq<Byte>)
    ensures |r| == 4
  {
    [v / 0x100_0000 % 256, v / 0x1_0000 % 256, v / 256 % 256, v % 256]
  }

  function FromBe32(s: seq<Byte>): (v: nat)
    requires |s| == 4
    ensures v < U32
  {
    (s[0] as int) * 0x100_0000 + (s[1] as int) * 0x1_0000 + (s[2] as int) * 256 + s[3]
  }

  lemma Be16RoundTrip(v: int)
    requires 0 <= v < U16
    ensures FromBe16(Be16(v)) == v
  {
  }

  lemma Be16Onto(s: seq<Byte>)
    requires |s| == 2
    ensures Be16(FromBe16(s)) == s
  {
  }

  lemma Be32RoundTrip(v: int)
    requires 0 <= v < U32
    ensures FromBe32(Be32(v)) == v
  {
    var q := v / 256 / 256;
    assert v / 0x1_0000 == q && v / 0x100_0000 == q / 256;
    assert v == ((q / 256 * 256 + q % 256) * 256 + v / 256 % 256) * 256 + v % 256;
  }

  lemma Base256(a: Byte, b: Byte, c: Byte, d: Byte)
    ensures var v := (a as int) * 0x100_0000 + (b as int) * 0x1_0000 + (c as int) * 256 + d;
      v / 0x100_0000 == a && v / 0x1_0000 % 256 == b && v / 256 % 256 == c && v % 256 == d
  {
    var high := (a as int) * 256 + b;
    var middle := high * 256 + c;
    var v := middle * 256 + d;
    assert v / 256 == middle && v % 256 == d;
    assert middle / 256 == high && middle % 256 == c;
    assert v / 0x1_0000 == high;
    assert v / 0x100_0000 == high / 256;
  }

  lemma Be32Onto(s: seq<Byte>)
    requires |s| == 4
    ensures Be32(FromBe32(s)) == s
  {
    Base256(s[0], s[1], s[2], s[3]);
  }

  // Little-endian integers (the native order of the target).

  function Le32(v: int): (r: seq<Byte>)
    ensures |r| == 4
  {
    [v % 256, v / 256 % 256, v / 0x1_0000 % 256, v / 0x100_0000 % 256]
  }

  function FromLe32(s: seq<Byte>): (v: nat)
    requires |s| == 4
    ensures v < U32
  {
    s[0] + (s[1] as int) * 256 + (s[2] as int) * 0x1_0000 + (s[3] as int) * 0x100_0000
  }

  function Le64(v: int): (r: seq<Byte>)
    ensures |r| == 8
  {
    Le32(v % U32) + Le32(v / U32)
  }

  function FromLe64(s: seq<Byte>): (v: nat)
    requires |s| == 8
    ensures v < U64
  {
    FromLe32(s[..4]) + FromLe32(s[4..]) * U32
  }

  lemma Le32RoundTrip(v: int)
    requires 0 <= v < U32
    ensures FromLe32(Le32(v)) == v
  {
    var q := v / 256 / 256;
    assert v / 0x1_0000 == q && v / 0x100_0000 == q / 256;
    assert v == ((q / 256 * 256 + q % 256) * 256 + v / 256 % 256) * 256 + v % 256;
  }

  lemma Le32Onto(s: seq<Byte>)
    requires |s| == 4
    ensures Le32(FromLe32(s)) == s
  {
    Base256(s[3], s[2], s[1], s[0]);
  }

  lemma Le64RoundTrip(v: int)
    requires 0 <= v < U64
    ensures FromLe64(Le64(v)) == v
  {
    Le32RoundTrip(v % U32);
    Le32RoundTrip(v / U32);
    assert Le64(v)[..4] == Le32(v % U32);
    assert Le64(v)[4..] == Le32(v / U32);
  }

  /** The concatenation of a list of blocks. */
  function Flatten(blocks: seq<seq<Byte>>): seq<Byte> {
    if blocks == [] then [] else blocks[0] + Flatten(blocks[1..])
  }

  lemma FlattenAppend(a: seq<seq<Byte>>, b: seq<seq<Byte>>)
    ensures Flatten(a + b) == Flatten(a) + Flatten(b)
  {
    if a == [] {
      assert a + b == b;
    } else {
      assert (a + b)[1..] == a[1..] + b;
      FlattenAppend(a[1..], b);
    }
  }

  lemma FlattenSnoc(blocks: seq<seq<Byte>>, b: seq<Byte>)
    ensures Flatten(blocks + [b]) == Flatten(blocks) + b
  {
    FlattenAppend(blocks, [b]);
    assert Flatten([b]) == b + Flatten([]);
  }

  /** A map that lacks one key. */
  function Without<K, V>(m: map<K, V>, k: K): map<K, V> {
    map x | x in m && x != k :: m[x]
  }

  // Searching.

  /** Where b first stands in t, or the length of t. */
  function IndexOf(t: Text, b: Byte): (n: nat)
    ensures n <= |t| && (n < |t| ==> t[n] == b) && b !in t[..n]
  {
    if t == [] then 0 else if t[0] == b then 0 else
    var n := IndexOf(t[1..], b);
    assert t[..1 + n] == [t[0]] + t[1..][..n];
    1 + n
  }

  lemma IndexOfIs(t: Text, b: Byte, n: nat)
    requires n <= |t| && b !in t[..n] && (n < |t| ==> t[n] == b)
    ensures IndexOf(t, b) == n
  {
    var m := IndexOf(t, b);
    forall i | 0 <= i < n ensures t[i] != b { assert t[..n][i] == t[i]; }
    forall i | 0 <= i < m ensures t[i] != b { assert t[..m][i] == t[i]; }
  }

  lemma IndexOfAt(a: Text, b: Byte, rest: Text)
    requires b !in a
    ensures IndexOf(a + [b] + rest, b) == |a|
  {
    assert (a + [b] + rest)[..|a|] == a;
    IndexOfIs(a + [b] + rest, b, |a|);
  }

  lemma IndexOfNone(a: Text, b: Byte)
    requires b !in a
    ensures IndexOf(a, b) == |a|
  {
    assert a[..|a|] == a;
    IndexOfIs(a, b, |a|);
  }

  function Min(a: int, b: int): int {
    if a < b then a else b
  }
}
