/** The software package: [u32 length][manifest][payload]. */
module PackageManifest {
  import opened Bytes
  import opened LeCodec

  datatype Manifest = Manifest(name: Text, version: Text, dependencies: seq<Text>, signature: Text)

  datatype Contents = Contents(manifest: Manifest, payload: seq<Byte>)

  /** The manifest's canonical encoding. */
  function Blob(m: Manifest): seq<Byte> {
    PutText(m.name) + PutText(m.version) +
    Le32(|m.dependencies| % U32) + PutTexts(m.dependencies) + PutText(m.signature)
  }

  function Package(m: Manifest, payload: seq<Byte>): seq<Byte> {
    Le32(|Blob(m)| % U32) + Blob(m) + payload
  }

  /** The manifest at the front of a blob; bytes behind it are ignored. */
  function ParseManifest(blob: seq<Byte>): Taken<Manifest> {
    var name := TakeText(blob);
    if name.Short? then Short else
    var version := TakeText(name.rest);
    if version.Short? then Short else
    var count := TakeU32(version.rest);
    if count.Short? then Short else
    var deps := TakeTexts(count.rest, count.value);
    if deps.Short? then Short else
    var signature := TakeText(deps.rest);
    if signature.Short? then Short
    else Taken(Manifest(name.value, version.value, deps.value, signature.value), signature.rest)
  }

  function Unpack(pkg: seq<Byte>): Option<Contents> {
    var len := TakeU32(pkg);
    if len.Short? || |len.rest| < len.value then None else
    var m := ParseManifest(len.rest[..len.value]);
    if m.Short? then None else Some(Contents(m.value, len.rest[len.value..]))
  }

  /** A blob parses to m exactly when m's canonical encoding is a prefix of it. */
  lemma ParseManifestExact(blob: seq<Byte>, m: Manifest)
    requires |blob| < U32
    ensures ParseManifest(blob).Taken? && ParseManifest(blob).value == m <==> Blob(m) <= blob
  {
    if Blob(m) <= blob {
      ParseManifestComplete(m, blob[|Blob(m)|..]);
      assert blob == Blob(m) + blob[|Blob(m)|..];
    }
    if ParseManifest(blob).Taken? {
      ParseManifestSound(blob);
    }
  }

  lemma Nest(a: seq<Byte>, b: seq<Byte>, c: seq<Byte>, d: seq<Byte>, e: seq<Byte>, rest: seq<Byte>)
    ensures a + b + c + d + e + rest == a + (b + (c + (d + (e + rest))))
  {
  }

  lemma ParseManifestComplete(m: Manifest, rest: seq<Byte>)
    requires |Blob(m)| < U32
    ensures ParseManifest(Blob(m) + rest) == Taken(m, rest)
  {
    var s4 := PutText(m.signature) + rest;
    var s3 := PutTexts(m.dependencies) + s4;
    var s2 := Le32(|m.dependencies|) + s3;
    var s1 := PutText(m.version) + s2;
    var s0 := PutText(m.name) + s1;
    hide PutText, TakeText, TakeU32, Le32, PutTexts, TakeTexts;
    PutTextsBounds(m.dependencies);
    Nest(PutText(m.name), PutText(m.version), Le32(|m.dependencies|), PutTexts(m.dependencies), PutText(m.signature),
         rest);
    assert Blob(m) + rest == s0;
    hide Blob;
    TakeTextExact(s0, m.name, s1);
    TakeTextExact(s1, m.version, s2);
    TakePutU32(|m.dependencies|, s3);
    TakePutTexts(m.dependencies, s4);
    TakeTextExact(s4, m.signature, rest);
  }

  lemma ParseManifestSound(blob: seq<Byte>)
    requires ParseManifest(blob).Taken?
    ensures blob == Blob(ParseManifest(blob).value) + ParseManifest(blob).rest
  {
    hide PutText, TakeText, TakeU32, Le32, PutTexts, TakeTexts;
    var name := TakeText(blob);
    var version := TakeText(name.rest);
    var count := TakeU32(version.rest);
    var deps := TakeTexts(count.rest, count.value);
    var signature := TakeText(deps.rest);
    assert ParseManifest(blob)
        == Taken(Manifest(name.value, version.value, deps.value, signature.value), signature.rest);
    hide ParseManifest;
    TakeTextExact(blob, name.value, name.rest);
    TakeTextExact(name.rest, version.value, version.rest);
    TakeU32Onto(version.rest);
    TakeTextsOnto(count.rest, count.value);
    TakeTextExact(deps.rest, signature.value, signature.rest);
    Nest(PutText(name.value), PutText(version.value), Le32(count.value), PutTexts(deps.value), PutText(signature.value),
         signature.rest);
  }

  /** Main result: the parser accepts exactly the packages whose announced blob starts with a canonical
      manifest, and gives back that manifest and everything behind the blob. */
  lemma UnpackExact(pkg: seq<Byte>, m: Manifest, payload: seq<Byte>)
    ensures Unpack(pkg) == Some(Contents(m, payload)) <==>
      && |payload| + 4 <= |pkg|
      && var blob := pkg[4..|pkg| - |payload|];
      && |blob| < U32
      && pkg == Le32(|blob|) + blob + payload
      && Blob(m) <= blob
  {
    hide Blob, ParseManifest, Le32, FromLe32;
    if Unpack(pkg) == Some(Contents(m, payload)) {
      var len := TakeU32(pkg);
      var blob := len.rest[..len.value];
      TakeU32Onto(pkg);
      assert blob == pkg[4..|pkg| - |payload|];
      assert pkg == Le32(|blob|) + blob + payload;
      ParseManifestExact(blob, m);
    }
    if |payload| + 4 <= |pkg| {
      var blob := pkg[4..|pkg| - |payload|];
      if |blob| < U32 && pkg == Le32(|blob|) + blob + payload && Blob(m) <= blob {
        assert pkg == Le32(|blob|) + (blob + payload);
        TakePutU32(|blob|, blob + payload);
        ParseManifestExact(blob, m);
      }
    }
  }

  /** Round trip: what was built comes out, manifest and payload. */
  lemma UnpackPackage(m: Manifest, payload: seq<Byte>)
    requires |Blob(m)| < U32
    ensures Unpack(Package(m, payload)) == Some(Contents(m, payload))
  {
    hide Blob, Le32, Unpack;
    var pkg := Package(m, payload);
    assert pkg == Le32(|Blob(m)|) + Blob(m) + payload;
    assert pkg[4..|pkg| - |payload|] == Blob(m);
    UnpackExact(pkg, m, payload);
  }

  method BuildPackage(m: Manifest, payload: seq<Byte>) returns (pkg: seq<Byte>)
    ensures pkg == Package(m, payload)
  {
    hide Le32, PutText;
    var blob: seq<Byte> := [];
    blob := AppendText(blob, m.name);
    blob := AppendText(blob, m.version);
    blob := blob + Le32(|m.dependencies| % U32);
    ghost var front := blob;
    for i := 0 to |m.dependencies|
      invariant blob == front + PutTexts(m.dependencies[..i])
    {
      PutTextsSnoc(m.dependencies[..i], m.dependencies[i]);
      assert m.dependencies[..i] + [m.dependencies[i]] == m.dependencies[..i + 1];
      blob := AppendText(blob, m.dependencies[i]);
    }
    assert m.dependencies[..|m.dependencies|] == m.dependencies;
    blob := AppendText(blob, m.signature);
    assert [] + PutText(m.name) == PutText(m.name);
    assert blob == Blob(m);
    pkg := Le32(|blob| % U32) + blob;
    pkg := pkg + payload;
  }

  lemma {:induction false} PutTextsSnoc(ts: seq<Text>, t: Text)
    ensures PutTexts(ts + [t]) == PutTexts(ts) + PutText(t)
  {
    hide PutText;
    if ts == [] {
      assert PutTexts([t]) == PutText(t) + [];
    } else {
      PutTextsSnoc(ts[1..], t);
      assert (ts + [t])[1..] == ts[1..] + [t];
    }
  }

  method UnpackInto(pkg: seq<Byte>) returns (ok: bool, m: Manifest, payload: seq<Byte>)
    ensures Unpack(pkg) == if ok then Some(Contents(m, payload)) else None
  {
    hide TakeText, TakeTexts, FromLe32;
    m, payload := Manifest([], [], [], []), [];
    var blobLen, pos, count, bpos;
    assert pkg[0..] == pkg;
    ok, blobLen, pos := ReadU32(pkg, 0);
    if !ok || pos + blobLen > |pkg| {
      return false, m, payload;
    }
    var blob := pkg[pos..pos + blobLen];
    pos := pos + blobLen;
    payload := pkg[pos..];
    assert TakeU32(pkg).rest[..blobLen] == blob && TakeU32(pkg).rest[blobLen..] == payload;
    assert blob[0..] == blob;

    var name, version, deps, signature;
    ok, name, bpos := ReadText(blob, 0);
    if !ok { return; }
    ok, version, bpos := ReadText(blob, bpos);
    if !ok { return; }
    ok, count, bpos := ReadU32(blob, bpos);
    if !ok { return; }
    ok, deps, bpos := ReadTexts(blob, bpos, count);
    if !ok { return; }
    ok, signature, bpos := ReadText(blob, bpos);
    if !ok { return; }
    m := Manifest(name, version, deps, signature);
  }
}
