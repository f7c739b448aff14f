/** Writing a Rockchip update image into the partitions of the inactive slot. */
module LinuxAbSlotManager {
  import opened Bytes
  import opened SlotManager

  // The image format.

  const RK_IMAGE_TAG: nat := 0x46414B52
  const RK_FW_MAGIC: nat := 0x57464B52
  const HEAD_SIZE: nat := 512
  const FW_OFFSET_AT: nat := 0x21
  const HEADER_SIZE: nat := 1932
  const ITEM_COUNT_AT: nat := 136
  const ITEMS_AT: nat := 140
  const ITEM_SIZE: nat := 112
  const MAX_ITEMS: nat := 16
  const BUFFER_SIZE: nat := 0x10_0000

  datatype Kind = Boot | System | NotASlotImage

  /** What the item loop uses of an item; offset counts from the start of the file. */
  datatype Item = Item(kind: Kind, offset: nat, size: nat)

  function U32At(image: seq<Byte>, at: nat): (v: nat)
    requires at + 4 <= |image|
    ensures v < U32
  {
    FromLe32(image[at..at + 4])
  }

  /** A name field holds a string that ends inside it. */
  predicate Named(field: seq<Byte>, name: string) {
    Ascii(name) + [0] <= field
  }

  function KindOf(field: seq<Byte>): Kind {
    if Named(field, "boot") then Boot else if Named(field, "rootfs") then System else NotASlotImage
  }

  /** Item i of a header at base; offsets are shifted by base, in 32 bits. */
  function ItemAt(image: seq<Byte>, base: nat, i: nat): Item
    requires i < MAX_ITEMS && base + HEADER_SIZE <= |image|
  {
    var at := base + ITEMS_AT + i * ITEM_SIZE;
    assert at + ITEM_SIZE <= base + HEADER_SIZE;
    Item(KindOf(image[at..at + 32]), (U32At(image, at + 96) + base) % U32, U32At(image, at + 108))
  }

  /** The shifted offset is the true one exactly when the sum fits 32 bits. */
  lemma OffsetExact(image: seq<Byte>, base: nat, i: nat)
    requires i < MAX_ITEMS && base + HEADER_SIZE <= |image| && base < U32
    ensures base + ITEMS_AT + i * ITEM_SIZE + 100 <= |image|
    ensures var stored := U32At(image, base + ITEMS_AT + i * ITEM_SIZE + 96);
      ItemAt(image, base, i).offset == stored + base <==> stored + base < U32
  {
    assert i * ITEM_SIZE + 100 <= 15 * ITEM_SIZE + 100;
  }

  /** Where the header starts: behind the new packing's own header if there is one. */
  function Base(image: seq<Byte>): (b: nat)
    requires |image| >= HEAD_SIZE
    ensures b < U32
  {
    if U32At(image, 0) == RK_FW_MAGIC then U32At(image, FW_OFFSET_AT) else 0
  }

  /** The items of an image, or None if its header is refused. */
  function Items(image: seq<Byte>): Option<seq<Item>> {
    if |image| < HEAD_SIZE then None else
    var base := Base(image);
    if base + HEADER_SIZE > |image| || U32At(image, base) != RK_IMAGE_TAG then None else
    var count := U32At(image, base + ITEM_COUNT_AT);
    if count == 0 || count > MAX_ITEMS then None
    else Some(seq(count, i requires 0 <= i < count => ItemAt(image, base, i)))
  }

  // The image format again, in bytes.

  const BOOT_NAME: seq<Byte> := [98, 111, 111, 116, 0]  // "boot" and the NUL behind it
  const ROOTFS_NAME: seq<Byte> := [114, 111, 111, 116, 102, 115, 0]

  function LeAt(image: seq<Byte>, at: nat): nat
    requires at + 4 <= |image|
  {
    image[at] + 256 * (image[at + 1] as nat) + 65536 * (image[at + 2] as nat) + 16777216 * (image[at + 3] as nat)
  }

  /** Behind the bytes RKFW the header starts where the four bytes at 33 say, else at the front. */
  function HeaderStart(image: seq<Byte>): nat
    requires |image| >= 512
  {
    if image[..4] == [0x52, 0x4B, 0x46, 0x57] then LeAt(image, 33) else 0
  }

  /** There is a header of 1932 bytes that starts with RKAF and announces 1 to 16 items. */
  predicate HasHeader(image: seq<Byte>) {
    && |image| >= 512
    && var h := HeaderStart(image);
    && h + 1932 <= |image| && image[h..h + 4] == [0x52, 0x4B, 0x41, 0x46]
    && 1 <= LeAt(image, h + 136) <= 16
  }

  function CountOf(image: seq<Byte>): nat
    requires HasHeader(image)
  {
    LeAt(image, HeaderStart(image) + 136)
  }

  /** Where the record of item i starts. */
  function RecordAt(image: seq<Byte>, i: nat): (at: nat)
    requires HasHeader(image) && i < CountOf(image)
    ensures at + 112 <= |image|
  {
    HeaderStart(image) + 140 + 112 * i
  }

  predicate HasName(image: seq<Byte>, i: nat, name: seq<Byte>)
    requires HasHeader(image) && i < CountOf(image) && |name| <= 32
  {
    image[RecordAt(image, i)..RecordAt(image, i) + |name|] == name
  }

  /** The stored offset counts from the header; the sum is taken in 32 bits. */
  function OffsetOf(image: seq<Byte>, i: nat): nat
    requires HasHeader(image) && i < CountOf(image)
  {
    (LeAt(image, RecordAt(image, i) + 96) + HeaderStart(image)) % 0x1_0000_0000
  }

  function SizeOf(image: seq<Byte>, i: nat): nat
    requires HasHeader(image) && i < CountOf(image)
  {
    LeAt(image, RecordAt(image, i) + 108)
  }

  /** now is a partition after the image was written: the last item of the name stands at its start, byte
      for byte, and without an item of the name it is as it was. */
  ghost predicate Lands(image: seq<Byte>, name: seq<Byte>, was: seq<Byte>, now: seq<Byte>) {
    && HasHeader(image) && |name| <= 32 && |now| == |was|
    && (forall i :: (0 <= i < CountOf(image) && HasName(image, i, name) && SizeOf(image, i) > 0 &&
          forall j :: i < j < CountOf(image) ==> !HasName(image, j, name)) ==>
          && OffsetOf(image, i) + SizeOf(image, i) <= |image| && SizeOf(image, i) <= |now|
          && now[..SizeOf(image, i)] == image[OffsetOf(image, i)..OffsetOf(image, i) + SizeOf(image, i)])
    && ((forall i :: 0 <= i < CountOf(image) ==> !HasName(image, i, name)) ==> now == was)
  }

  lemma LeAtIs(image: seq<Byte>, at: nat)
    requires at + 4 <= |image|
    ensures U32At(image, at) == LeAt(image, at)
  {
  }

  lemma TagBytes(image: seq<Byte>, at: nat)
    requires at + 4 <= |image|
    ensures LeAt(image, at) == RK_IMAGE_TAG <==> image[at..at + 4] == [0x52, 0x4B, 0x41, 0x46]
    ensures LeAt(image, at) == RK_FW_MAGIC <==> image[at..at + 4] == [0x52, 0x4B, 0x46, 0x57]
  {
    var four := image[at..at + 4];
    assert four == [image[at], image[at + 1], image[at + 2], image[at + 3]];
    if LeAt(image, at) == RK_IMAGE_TAG {
      LeDigits(image[at], image[at + 1], image[at + 2], image[at + 3], 0x52, 0x4B, 0x41, 0x46);
    }
    if LeAt(image, at) == RK_FW_MAGIC {
      LeDigits(image[at], image[at + 1], image[at + 2], image[at + 3], 0x52, 0x4B, 0x46, 0x57);
    }
  }

  lemma LeDigits(a: Byte, b: Byte, c: Byte, d: Byte, a': Byte, b': Byte, c': Byte, d': Byte)
    requires a + 256 * (b as nat) + 65536 * (c as nat) + 16777216 * (d as nat)
          == a' + 256 * (b' as nat) + 65536 * (c' as nat) + 16777216 * (d' as nat)
    ensures a == a' && b == b' && c == c' && d == d'
  {
  }

  lemma NameBytes(field: seq<Byte>)
    requires |field| == 32
    ensures KindOf(field) == Boot <==> field[..5] == BOOT_NAME
    ensures KindOf(field) == System <==> field[..7] == ROOTFS_NAME
  {
    assert Ascii("boot") + [0] == BOOT_NAME && Ascii("rootfs") + [0] == ROOTFS_NAME;
    assert field[..7][..5] == field[..5];
    if field[..7] == ROOTFS_NAME { assert field[0] == 114; }
    if field[..5] == BOOT_NAME { assert field[0] == 98; }
  }

  /** The parser's view of a header is the one in bytes. */
  lemma ItemsInBytes(image: seq<Byte>)
    ensures Items(image).Some? <==> HasHeader(image)
    ensures Items(image).Some? ==>
      && |Items(image).value| == CountOf(image)
      && forall i :: 0 <= i < CountOf(image) ==>
           var item := Items(image).value[i];
           && item.offset == OffsetOf(image, i) && item.size == SizeOf(image, i)
           && (item.kind == Boot <==> HasName(image, i, BOOT_NAME))
           && (item.kind == System <==> HasName(image, i, ROOTFS_NAME))
  {
    hide KindOf, LeAt, U32At, ItemAt;
    if |image| >= HEAD_SIZE {
      LeAtIs(image, 0);
      LeAtIs(image, FW_OFFSET_AT);
      TagBytes(image, 0);
      var h := Base(image);
      assert h == HeaderStart(image);
      if h + HEADER_SIZE <= |image| {
        LeAtIs(image, h);
        TagBytes(image, h);
        LeAtIs(image, h + ITEM_COUNT_AT);
      }
    }
    if Items(image).Some? {
      forall i | 0 <= i < CountOf(image)
        ensures var item := Items(image).value[i];
          && item.offset == OffsetOf(image, i) && item.size == SizeOf(image, i)
          && (item.kind == Boot <==> HasName(image, i, BOOT_NAME))
          && (item.kind == System <==> HasName(image, i, ROOTFS_NAME))
      {
        ItemInBytes(image, i);
      }
    }
  }

  lemma ItemInBytes(image: seq<Byte>, i: nat)
    requires HasHeader(image) && i < CountOf(image)
    ensures var item := ItemAt(image, HeaderStart(image), i);
      && item.offset == OffsetOf(image, i) && item.size == SizeOf(image, i)
      && (item.kind == Boot <==> HasName(image, i, BOOT_NAME))
      && (item.kind == System <==> HasName(image, i, ROOTFS_NAME))
  {
    hide KindOf, LeAt, U32At;
    var at := RecordAt(image, i);
    LeAtIs(image, at + 96);
    LeAtIs(image, at + 108);
    var field := image[at..at + 32];
    NameBytes(field);
    assert field[..5] == image[at..at + 5] && field[..7] == image[at..at + 7];
  }

  // What a completed write leaves on a partition.

  /** The partition after one item was copied to its start. */
  function Copied(image: seq<Byte>, item: Item, dev: seq<Byte>): seq<Byte>
    requires item.offset + item.size <= |image| && item.size <= |dev|
  {
    image[item.offset..item.offset + item.size] + dev[item.size..]
  }

  predicate CopyFits(image: seq<Byte>, item: Item, dev: seq<Byte>) {
    item.size == 0 || (item.offset + item.size <= |image| && item.size <= |dev|)
  }

  /** Every boot item fits the boot partition and every rootfs item the system partition. */
  predicate ItemsFit(image: seq<Byte>, items: seq<Item>, boot: seq<Byte>, system: seq<Byte>) {
    forall item :: item in items ==>
      && (item.kind == Boot ==> CopyFits(image, item, boot))
      && (item.kind == System ==> CopyFits(image, item, system))
  }

  lemma NoItemsFit(image: seq<Byte>, items: seq<Item>, boot: seq<Byte>, system: seq<Byte>)
    ensures ItemsFit(image, items[..0], boot, system)
  {
  }

  lemma ItemsFitNext(image: seq<Byte>, items: seq<Item>, i: nat, boot: seq<Byte>, system: seq<Byte>)
    requires i < |items|
    ensures ItemsFit(image, items[..i + 1], boot, system) <==>
      && ItemsFit(image, items[..i], boot, system)
      && (items[i].kind == Boot ==> CopyFits(image, items[i], boot))
      && (items[i].kind == System ==> CopyFits(image, items[i], system))
    ensures ItemsFit(image, items, boot, system) ==> ItemsFit(image, items[..i + 1], boot, system)
  {
    assert items[..i + 1] == items[..i] + [items[i]];
  }

  /** The partition after all items of its kind have been copied in order. */
  function Flashed(image: seq<Byte>, items: seq<Item>, kind: Kind, dev: seq<Byte>): (r: seq<Byte>)
    ensures |r| == |dev|
  {
    if items == [] then dev else
    var before, item := Flashed(image, items[..|items| - 1], kind, dev), items[|items| - 1];
    if item.kind == kind && item.size > 0 && CopyFits(image, item, before) then Copied(image, item, before) else before
  }

  /** The last item of a kind stands at the start of its partition, byte for byte. */
  lemma {:induction false} LastItemInPlace(image: seq<Byte>, items: seq<Item>, k: nat, dev: seq<Byte>)
    requires k < |items| && items[k].size > 0 && CopyFits(image, items[k], dev)
    requires forall j :: k < j < |items| ==> items[j].kind != items[k].kind
    ensures var item := items[k];
      Flashed(image, items, item.kind, dev)[..item.size] == image[item.offset..item.offset + item.size]
    decreases |items|
  {
    var before := items[..|items| - 1];
    if k < |items| - 1 {
      assert before[k] == items[k];
      LastItemInPlace(image, before, k, dev);
    }
  }

  lemma FlashedNone(image: seq<Byte>, items: seq<Item>, kind: Kind, dev: seq<Byte>)
    ensures Flashed(image, items[..0], kind, dev) == dev
  {
  }

  lemma FlashedNext(image: seq<Byte>, items: seq<Item>, i: nat, kind: Kind, dev: seq<Byte>)
    requires i < |items|
    ensures var before := Flashed(image, items[..i], kind, dev);
      Flashed(image, items[..i + 1], kind, dev) ==
        if items[i].kind == kind && items[i].size > 0 && CopyFits(image, items[i], before)
        then Copied(image, items[i], before) else before
  {
    assert items[..i + 1][..i] == items[..i];
  }

  lemma {:induction false} NothingFlashed(image: seq<Byte>, items: seq<Item>, kind: Kind, dev: seq<Byte>)
    requires forall item :: item in items ==> item.kind != kind
    ensures Flashed(image, items, kind, dev) == dev
    decreases |items|
  {
    if items != [] {
      NothingFlashed(image, items[..|items| - 1], kind, dev);
    }
  }

  lemma FlashedLands(image: seq<Byte>, kind: Kind, name: seq<Byte>, was: seq<Byte>)
    requires Items(image).Some? && (kind == Boot || kind == System)
    requires name == if kind == Boot then BOOT_NAME else ROOTFS_NAME
    requires forall item :: item in Items(image).value && item.kind == kind ==> CopyFits(image, item, was)
    ensures Lands(image, name, was, Flashed(image, Items(image).value, kind, was))
  {
    hide Items, Flashed, HasHeader, HasName, OffsetOf, SizeOf, CountOf;
    ItemsInBytes(image);
    var items := Items(image).value;
    var now := Flashed(image, items, kind, was);
    forall i | 0 <= i < CountOf(image) && HasName(image, i, name) && SizeOf(image, i) > 0 &&
        (forall j :: i < j < CountOf(image) ==> !HasName(image, j, name))
      ensures OffsetOf(image, i) + SizeOf(image, i) <= |image| && SizeOf(image, i) <= |now|
      ensures now[..SizeOf(image, i)] == image[OffsetOf(image, i)..OffsetOf(image, i) + SizeOf(image, i)]
    {
      assert items[i] in items && items[i].kind == kind;
      forall j | i < j < |items| ensures items[j].kind != items[i].kind {
        assert !HasName(image, j, name);
      }
      LastItemInPlace(image, items, i, was);
    }
    if forall i :: 0 <= i < CountOf(image) ==> !HasName(image, i, name) {
      forall item | item in items ensures item.kind != kind {
        var i :| 0 <= i < |items| && items[i] == item;
        assert !HasName(image, i, name);
      }
      NothingFlashed(image, items, kind, was);
    }
  }

  /** Every item named boot lies inside the image and is no larger than the boot partition, and likewise
      for rootfs and the system partition; an item without bytes always fits. */
  ghost predicate Fits(image: seq<Byte>, boot: seq<Byte>, system: seq<Byte>) {
    && HasHeader(image)
    && (forall i :: 0 <= i < CountOf(image) && SizeOf(image, i) > 0 && HasName(image, i, BOOT_NAME) ==>
          OffsetOf(image, i) + SizeOf(image, i) <= |image| && SizeOf(image, i) <= |boot|)
    && (forall i :: 0 <= i < CountOf(image) && SizeOf(image, i) > 0 && HasName(image, i, ROOTFS_NAME) ==>
          OffsetOf(image, i) + SizeOf(image, i) <= |image| && SizeOf(image, i) <= |system|)
  }

  /** Both partitions after the image was written, in bytes. */
  ghost predicate BothLand(image: seq<Byte>, boot: seq<Byte>, system: seq<Byte>,
                           boot': seq<Byte>, system': seq<Byte>)
  {
    && Fits(image, boot, system)
    && Lands(image, BOOT_NAME, boot, boot') && Lands(image, ROOTFS_NAME, system, system')
  }

  /** The same in full: the items were copied one after the other. */
  ghost predicate BothFlashed(image: seq<Byte>, boot: seq<Byte>, system: seq<Byte>,
                              boot': seq<Byte>, system': seq<Byte>)
  {
    && Items(image).Some? && boot' == Flashed(image, Items(image).value, Boot, boot)
    && system' == Flashed(image, Items(image).value, System, system)
  }

  lemma FitsIs(image: seq<Byte>, boot: seq<Byte>, system: seq<Byte>)
    requires Items(image).Some?
    ensures Fits(image, boot, system) <==> ItemsFit(image, Items(image).value, boot, system)
  {
    hide Items, HasHeader, HasName, OffsetOf, SizeOf, CountOf;
    ItemsInBytes(image);
    var items := Items(image).value;
    if Fits(image, boot, system) {
      forall item | item in items
        ensures (item.kind == Boot ==> CopyFits(image, item, boot))
        ensures (item.kind == System ==> CopyFits(image, item, system))
      {
        var i :| 0 <= i < |items| && items[i] == item;
      }
    }
    if ItemsFit(image, items, boot, system) {
      forall i | 0 <= i < CountOf(image) ensures items[i] in items {
      }
    }
  }

  lemma FlashedBothLand(image: seq<Byte>, boot: seq<Byte>, system: seq<Byte>)
    requires Items(image).Some? && ItemsFit(image, Items(image).value, boot, system)
    ensures BothLand(image, boot, system, Flashed(image, Items(image).value, Boot, boot),
                     Flashed(image, Items(image).value, System, system))
  {
    hide Items, Flashed, Lands, CopyFits, Fits;
    FitsIs(image, boot, system);
    FlashedLands(image, Boot, BOOT_NAME, boot);
    FlashedLands(image, System, ROOTFS_NAME, system);
  }

  // The copy loop.

  /** What the operating system does: read(k) and write(k) are what the k-th call of a copy would be
      content to move; none or a negative number is an error. */
  datatype Io = Io(read: nat -> int, write: nat -> int, imageOpens: bool, deviceOpens: bool)

  /** Both files open, every read brings something, however little, and every write takes what was read. */
  ghost predicate Willing(io: Io) {
    io.imageOpens && io.deviceOpens && forall k: nat :: 0 < io.read(k) <= io.write(k)
  }

  /** Copies one item of the image to the start of a partition. However short the reads are, the copy
      fails only where a call fails or where the item does not fit. */
  method WriteItem(image: seq<Byte>, offset: nat, size: nat, dev: array<Byte>, io: Io) returns (ok: bool)
    modifies dev
    ensures ok ==> offset + size <= |image| || size == 0
    ensures ok ==> size <= dev.Length || size == 0
    ensures ok && size > 0 ==> dev[..] == image[offset..offset + size] + old(dev[size..])
    ensures ok && size == 0 ==> dev[..] == old(dev[..])
    ensures Willing(io) && (size == 0 || (offset + size <= |image| && size <= dev.Length)) ==> ok
    ensures !ok ==> exists n :: Progress(image, offset, size, old(dev[..]), dev[..], n)
  {
    hide Progress, Willing;
    ghost var was := dev[..];
    ProgressNone(image, offset, size, was);
    WillingAt(io, 0);
    if !io.imageOpens || !io.deviceOpens {
      return false;
    }
    var remaining, k := size, 0;
    while remaining > 0
      invariant 0 <= remaining <= size
      invariant Progress(image, offset, size, was, dev[..], size - remaining)
      invariant remaining < size ==> offset + size - remaining <= |image|
      decreases remaining
    {
      var done := size - remaining;
      WillingAt(io, k);
      ProgressSoFar(image, offset, size, was, dev[..], done);
      var want := Min(BUFFER_SIZE, remaining);
      var rn := Min(io.read(k), Min(want, |image| - (offset + done)));
      if rn <= 0 {
        return false;
      }
      var wn := Min(io.write(k), Min(rn, dev.Length - done));
      if wn > 0 {
        Store(dev, done, image[offset + done..offset + done + wn]);
        ProgressMore(image, offset, size, was, dev[..], done, wn);
      }
      if wn != rn {
        return false;
      }
      remaining := remaining - rn;
      k := k + 1;
    }
    ProgressSoFar(image, offset, size, was, dev[..], size);
    ok := true;
  }

  lemma WillingAt(io: Io, k: nat)
    ensures Willing(io) ==> io.imageOpens && io.deviceOpens && 0 < io.read(k) <= io.write(k)
  {
  }

  /** n bytes of the item stand at the start of the partition; the rest of it is as it was. */
  ghost predicate Progress(image: seq<Byte>, offset: nat, size: nat, was: seq<Byte>, now: seq<Byte>, n: int) {
    && 0 <= n <= size && |now| == |was|
    && (n > 0 ==> offset + n <= |image| && n <= |was| && now == image[offset..offset + n] + was[n..])
    && (n == 0 ==> now == was)
  }

  lemma ProgressNone(image: seq<Byte>, offset: nat, size: nat, was: seq<Byte>)
    ensures Progress(image, offset, size, was, was, 0)
  {
  }

  lemma ProgressSoFar(image: seq<Byte>, offset: nat, size: nat, was: seq<Byte>, now: seq<Byte>, n: nat)
    requires Progress(image, offset, size, was, now, n)
    ensures n == 0 ==> now == was
    ensures n > 0 ==> offset + n <= |image| && n <= |was| && now == image[offset..offset + n] + was[n..]
  {
  }

  lemma ProgressMore(image: seq<Byte>, offset: nat, size: nat, was: seq<Byte>, now: seq<Byte>, done: nat, wn: nat)
    requires wn > 0 && done + wn <= size && offset + done + wn <= |image| && done + wn <= |was| == |now|
    requires now[done..done + wn] == image[offset + done..offset + done + wn]
    requires var prev := if done > 0 then image[offset..offset + done] + was[done..] else was;
      now[..done] == prev[..done] && now[done + wn..] == prev[done + wn..]
    ensures Progress(image, offset, size, was, now, done + wn)
  {
    assert now == now[..done] + now[done..done + wn] + now[done + wn..];
    assert image[offset..offset + done] + image[offset + done..offset + done + wn] == image[offset..offset + done + wn];
  }

  /** One write at the current position. */
  method Store(dev: array<Byte>, at: nat, bytes: seq<Byte>)
    requires at + |bytes| <= dev.Length
    modifies dev
    ensures dev[at..at + |bytes|] == bytes
    ensures dev[..at] == old(dev[..at]) && dev[at + |bytes|..] == old(dev[at + |bytes|..])
  {
    forall i | 0 <= i < |bytes| {
      dev[at + i] := bytes[i];
    }
  }

  /** The item loop: boot and rootfs items go to their partitions, the others are skipped, and the first
      failure ends it. */
  method WriteItems(image: seq<Byte>, items: seq<Item>, boot: array<Byte>, system: array<Byte>, io: nat -> Io)
    returns (ok: bool)
    requires boot != system
    modifies boot, system
    ensures ok ==>
      && boot[..] == Flashed(image, items, Boot, old(boot[..]))
      && system[..] == Flashed(image, items, System, old(system[..]))
      && ItemsFit(image, items, old(boot[..]), old(system[..]))
    ensures ItemsFit(image, items, old(boot[..]), old(system[..])) && (forall i: nat :: Willing(io(i))) ==> ok
  {
    hide Flashed, ItemsFit, Willing;
    ghost var b, s := boot[..], system[..];
    FlashedNone(image, items, Boot, b);
    FlashedNone(image, items, System, s);
    NoItemsFit(image, items, b, s);
    for i := 0 to |items|
      invariant boot[..] == Flashed(image, items[..i], Boot, b)
      invariant system[..] == Flashed(image, items[..i], System, s)
      invariant ItemsFit(image, items[..i], b, s)
    {
      var item := items[i];
      FlashedNext(image, items, i, Boot, b);
      FlashedNext(image, items, i, System, s);
      ItemsFitNext(image, items, i, b, s);
      if item.kind == NotASlotImage {
        continue;
      }
      var dev := if item.kind == Boot then boot else system;
      ok := WriteItem(image, item.offset, item.size, dev, io(i));
      if !ok {
        return false;
      }
    }
    assert items[..|items|] == items;
    ok := true;
  }

  // The board's slots.

  class LinuxAbSlotManager {
    const current: Slot
    const bootA: array<Byte>
    const bootB: array<Byte>
    const systemA: array<Byte>
    const systemB: array<Byte>

    ghost predicate Valid() {
      && bootA != bootB && bootA != systemA && bootA != systemB
      && bootB != systemA && bootB != systemB && systemA != systemB
    }

    function InactiveSlot(): Slot {
      if current == A then B else A
    }

    function BootOf(slot: Slot): array<Byte> {
      if slot == A then bootA else bootB
    }

    function SystemOf(slot: Slot): array<Byte> {
      if slot == A then systemA else systemB
    }

    constructor (current: Slot, bootA: array<Byte>, bootB: array<Byte>, systemA: array<Byte>, systemB: array<Byte>)
      requires bootA != bootB && bootA != systemA && bootA != systemB
      requires bootB != systemA && bootB != systemB && systemA != systemB
      ensures Valid() && this.current == current
      ensures this.bootA == bootA && this.bootB == bootB && this.systemA == systemA && this.systemB == systemB
    {
      this.current, this.bootA, this.bootB, this.systemA, this.systemB := current, bootA, bootB, systemA, systemB;
    }

    /** Writes the boot and rootfs items into the inactive slot; io(i) serves item i. The partitions of the
        running slot stay as they are, whatever happens. On success the others hold the items, and when no
        call fails it succeeds for every image whose items fit. */
    method WriteImageToInactive(image: seq<Byte>, io: nat -> Io) returns (ok: bool)
      requires Valid()
      modifies bootA, bootB, systemA, systemB
      ensures current == A ==> bootA[..] == old(bootA[..]) && systemA[..] == old(systemA[..])
      ensures current == B ==> bootB[..] == old(bootB[..]) && systemB[..] == old(systemB[..])
      ensures ok && current == A ==>
        && BothLand(image, old(bootB[..]), old(systemB[..]), bootB[..], systemB[..])
        && BothFlashed(image, old(bootB[..]), old(systemB[..]), bootB[..], systemB[..])
      ensures ok && current == B ==>
        && BothLand(image, old(bootA[..]), old(systemA[..]), bootA[..], systemA[..])
        && BothFlashed(image, old(bootA[..]), old(systemA[..]), bootA[..], systemA[..])
      ensures current == A && Fits(image, old(bootB[..]), old(systemB[..])) && (forall i: nat :: Willing(io(i))) ==> ok
      ensures current == B && Fits(image, old(bootA[..]), old(systemA[..])) && (forall i: nat :: Willing(io(i))) ==> ok
    {
      hide Items, Flashed, ItemsFit, Willing, HasHeader, BothLand;
      ItemsInBytes(image);
      var parsed := ReadHeader(image);
      if parsed.None? {
        return false;
      }
      var boot, system := BootOf(InactiveSlot()), SystemOf(InactiveSlot());
      ghost var b, s := boot[..], system[..];
      FitsIs(image, b, s);
      hide Fits;
      ok := WriteItems(image, parsed.value, boot, system, io);
      if ok {
        FlashedBothLand(image, b, s);
      }
    }

    /** Finds the header and reads the item table. */
    method ReadHeader(image: seq<Byte>) returns (items: Option<seq<Item>>)
      ensures items == Items(image)
    {
      if |image| < HEAD_SIZE {
        return None;
      }
      var base := 0;
      if U32At(image, 0) == RK_FW_MAGIC {
        base := U32At(image, FW_OFFSET_AT);
      }
      if base + HEADER_SIZE > |image| || U32At(image, base) != RK_IMAGE_TAG {
        return None;
      }
      var count := U32At(image, base + ITEM_COUNT_AT);
      if count == 0 || count > MAX_ITEMS {
        return None;
      }
      var list: seq<Item> := [];
      for i := 0 to count
        invariant |list| == i
        invariant forall j :: 0 <= j < i ==> list[j] == ItemAt(image, base, j)
      {
        list := list + [ItemAt(image, base, i)];
      }
      assert list == seq(count, i requires 0 <= i < count => ItemAt(image, base, i));
      items := Some(list);
    }
  }
}
