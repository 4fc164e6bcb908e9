/** The ustar and pax layout, as the "ustar Interchange Format" and "pax Extended Header" sections of the pax utility
    in IEEE Std 1003.1-2017 lay it out, and the round trip: planning an archive undoes writing it. */
module TarWriter {
  import opened Results
  import opened TarNumbers
  import opened PaxRecords
  import opened TarReader

  const MAGIC: Bytes := [117, 115, 116, 97, 114, 0, 48, 48] // "ustar", NUL, version "00"

  /** The header fields the reader ignores, each with its width. */
  datatype OtherFields = OtherFields(ids: Bytes, mtime: Bytes, link: Bytes, owner: Bytes, rest: Bytes) {
    predicate Valid() { |ids| == 16 && |mtime| == 12 && |link| == 100 && |owner| == 80 && |rest| == 12 }
  }

  function Zeros(n: nat): (s: Bytes)
    ensures |s| == n && forall i | 0 <= i < n :: s[i] == 0
  {
    seq(n, _ => 0)
  }

  function Field(text: Bytes, width: nat): (field: Bytes)
    requires |text| <= width
    ensures |field| == width
  {
    text + Zeros(width - |text|)
  }

  datatype HeaderFields = HeaderFields(prefix: Bytes, name: Bytes, typeflag: Byte, mode: nat, size: nat, other: OtherFields) {
    predicate Valid() {
      && |name| <= 100 && 0 !in name && |prefix| <= 155 && 0 !in prefix
      && mode < 0x1000 && size < Power(8, 11) && other.Valid()
    }

    function BeforeChecksum(): (bs: Bytes)
      requires Valid()
      ensures |bs| == 148
    {
      Field(name, 100) + OctalField(mode, 8) + other.ids + OctalField(size, 12) + other.mtime
    }

    function AfterChecksum(): (bs: Bytes)
      requires Valid()
      ensures |bs| == 356
    {
      [typeflag] + other.link + MAGIC + other.owner + Field(prefix, 155) + other.rest
    }

    /** The 512-byte header. */
    function Block(): (bs: Bytes)
      requires Valid()
      ensures |bs| == BLOCK
    {
      BeforeChecksum() + OctalField(ByteSum(BeforeChecksum()) + 8 * SPACE + ByteSum(AfterChecksum()), 8) + AfterChecksum()
    }

    function FullName(): Bytes {
      if prefix != [] then prefix + [SLASH] + name else name
    }
  }

  // ---- headers ----

  lemma FieldIsText(text: Bytes, width: nat)
    requires |text| <= width && 0 !in text
    ensures TarString(Field(text, width)) == text
  {
    var field := Field(text, width);
    if |text| < width {
      assert field == text + [0] + Zeros(width - |text| - 1);
      IndexOfFirst(text, 0, Zeros(width - |text| - 1));
      assert field[..|text|] == text;
    } else {
      assert field == text;
    }
  }

  lemma {:induction false} ByteSumBound(bs: Bytes)
    ensures ByteSum(bs) <= 255 * |bs|
  {
    if bs != [] { ByteSumBound(bs[..|bs| - 1]); }
  }

  lemma Powers()
    ensures Power(8, 7) == 0x20_0000 && Power(8, 11) == 0x2_0000_0000
  {
    assert Power(8, 3) == 512 && Power(8, 4) == 4096;
    assert Power(8, 7) == 8 * (8 * (8 * Power(8, 4)));
    assert Power(8, 11) == 8 * (8 * (8 * (8 * Power(8, 7))));
  }

  lemma BlockSlices(h: HeaderFields)
    requires h.Valid()
    ensures var block := h.Block();
      && block[..148] == h.BeforeChecksum() && block[156..] == h.AfterChecksum()
      && block[148..156] == OctalField(ByteSum(h.BeforeChecksum()) + 8 * SPACE + ByteSum(h.AfterChecksum()), 8)
      && block[0..100] == Field(h.name, 100) && block[100..108] == OctalField(h.mode, 8)
      && block[124..136] == OctalField(h.size, 12) && block[156] == h.typeflag && block[345..500] == Field(h.prefix, 155)
  {
    hide OctalField, Field, ByteSum;
    var block, before, after := h.Block(), h.BeforeChecksum(), h.AfterChecksum();
    assert block[..148] == before && block[156..] == after;
    assert before[0..100] == Field(h.name, 100) && before[100..108] == OctalField(h.mode, 8);
    assert before[124..136] == OctalField(h.size, 12);
    assert block[0..100] == before[0..100] && block[100..108] == before[100..108] && block[124..136] == before[124..136];
    assert after[189..344] == Field(h.prefix, 155) && block[345..500] == after[189..344];
    assert block[156] == after[0];
  }

  /** Parsing a header block gives back its fields. */
  lemma HeaderRoundTrip(h: HeaderFields)
    requires h.Valid()
    ensures HeaderOf(h.Block()) == Some(Header(h.FullName(), EffectiveType(h.typeflag, h.FullName()), h.size, h.mode))
    ensures !IsZero(h.Block())
  {
    hide OctalField, Field, ByteSum, OctalMeaning, NumericMeaning, TarString, HeaderFields.Block, HeaderFields.BeforeChecksum,
      HeaderFields.AfterChecksum;
    var before, after := h.BeforeChecksum(), h.AfterChecksum();
    var sum := ByteSum(before) + 8 * SPACE + ByteSum(after);
    BlockSlices(h);
    Powers();
    ByteSumBound(before);
    ByteSumBound(after);
    OctalFieldDenotes(sum, 8);
    OctalFieldDenotes(h.mode, 8);
    OctalFieldDenotes(h.size, 12);
    FieldIsText(h.name, 100);
    FieldIsText(h.prefix, 155);
    assert h.Block()[148] == OctalField(sum, 8)[0];
    OctalFieldStarts(sum, 8);
  }

  lemma OctalFieldStarts(v: nat, width: nat)
    requires width >= 2
    ensures OctalField(v, width)[0] != 0
  {
    assert OctalField(v, width)[0] == OctalDigits(v, width - 1)[0];
  }

  // ---- entries ----

  /** Data rounded up to whole blocks. */
  function Padded(data: Bytes): (bs: Bytes)
    ensures |data| <= |bs| < |data| + BLOCK && |bs| % BLOCK == 0 && bs[..|data|] == data
  {
    data + Zeros((BLOCK - |data| % BLOCK) % BLOCK)
  }

  /** An entry to archive. */
  datatype Item = Item(name: Bytes, isDir: bool, mode: nat, data: Bytes)

  /** How a writer chooses to lay an entry out: the split of the name in the header, whether the real name and the
      real size go into a pax header instead, and the fields nobody reads. */
  datatype Layout = Layout(header: HeaderFields, paxHeader: HeaderFields, paxPath: bool, paxSize: bool)

  function Extras(item: Item, layout: Layout): seq<(Bytes, Bytes)> {
    (if layout.paxPath then [(PATH_KEY, item.name)] else []) +
    (if layout.paxSize then [(SIZE_KEY, Decimal(|item.data|))] else [])
  }

  function PaxPayload(item: Item, layout: Layout): Bytes {
    Written(Extras(item, layout))
  }

  ghost predicate Writable(item: Item, layout: Layout) {
    && CleanEntryName(item.name).Some?
    && (item.isDir ==> item.data == [])
    && layout.header.Valid() && layout.header.mode == item.mode
    && layout.header.typeflag == (if item.isDir then TYPE_DIR else TYPE_REG)
    && (if layout.paxSize then layout.header.size <= |item.data| else layout.header.size == |item.data|)
    && (!layout.paxPath ==> layout.header.FullName() == item.name)
    && (layout.paxPath || layout.paxSize ==>
          layout.paxHeader.Valid() && layout.paxHeader.typeflag == TYPE_PAX &&
          layout.paxHeader.size == |PaxPayload(item, layout)|)
  }

  function PaxPart(item: Item, layout: Layout): Bytes
    requires Writable(item, layout)
  {
    if layout.paxPath || layout.paxSize then layout.paxHeader.Block() + Padded(PaxPayload(item, layout)) else []
  }

  function ItemBytes(item: Item, layout: Layout): Bytes
    requires Writable(item, layout)
  {
    PaxPart(item, layout) + layout.header.Block() + Padded(item.data)
  }

  ghost predicate AllWritable(items: seq<(Item, Layout)>) {
    forall i | 0 <= i < |items| :: Writable(items[i].0, items[i].1)
  }

  /** A whole archive: its items, then two zero blocks. */
  function ArchiveOf(items: seq<(Item, Layout)>): Bytes
    requires AllWritable(items)
  {
    if items == [] then Zeros(2 * BLOCK) else ItemBytes(items[0].0, items[0].1) + ArchiveOf(items[1..])
  }

  /** What the plan must say of an item whose data starts at `offset`. */
  function EntryFor(item: Item, offset: nat): Entry
    requires CleanEntryName(item.name).Some?
  {
    var clean := CleanEntryName(item.name).value;
    if item.isDir then DirEntry(clean.name, clean.part, item.mode)
    else FileEntry(clean.name, clean.part, offset, |item.data|, item.mode)
  }

  function DataOffset(item: Item, layout: Layout, at: nat): nat
    requires Writable(item, layout)
  {
    at + |PaxPart(item, layout)| + BLOCK
  }

  function Placed(items: seq<(Item, Layout)>, at: nat): (entries: seq<Entry>)
    requires AllWritable(items)
    ensures |entries| == |items|
  {
    if items == [] then []
    else
      [EntryFor(items[0].0, DataOffset(items[0].0, items[0].1, at))] +
      Placed(items[1..], at + |ItemBytes(items[0].0, items[0].1)|)
  }

  // ---- reading back ----

  /** A chunk of the archive at a given offset. */
  ghost predicate At(archive: Bytes, offset: nat, chunk: Bytes) {
    offset + |chunk| <= |archive| && archive[offset..offset + |chunk|] == chunk
  }

  lemma AtSplits(archive: Bytes, offset: nat, a: Bytes, b: Bytes)
    requires At(archive, offset, a + b)
    ensures At(archive, offset, a) && At(archive, offset + |a|, b)
  {
    var c := archive[offset..offset + |a + b|];
    assert archive[offset..offset + |a|] == c[..|a|] && archive[offset + |a|..offset + |a| + |b|] == c[|a|..];
  }

  lemma DataEndsAt(data: nat, payload: Bytes, archiveSize: nat)
    requires data + |Padded(payload)| <= archiveSize <= MAX_INT64 - BLOCK
    ensures DataEnd(data, |payload|, archiveSize) == Some(data + |Padded(payload)|)
  {
    var padded := PaddedTarSize(|payload|).value;
    assert padded == |Padded(payload)|;
  }

  lemma BlocksMonotone(a: nat, b: nat)
    requires a <= b <= MAX_INT64 - BLOCK
    ensures PaddedTarSize(a).value <= PaddedTarSize(b).value
  {
    assert (a + BLOCK - 1) / BLOCK <= (b + BLOCK - 1) / BLOCK;
  }

  /** A smaller stated size ends no later. */
  lemma SmallerDataEnds(data: nat, stated: nat, payload: Bytes, archiveSize: nat)
    requires stated <= |payload| && data + |Padded(payload)| <= archiveSize <= MAX_INT64 - BLOCK
    ensures DataEnd(data, stated, archiveSize).Some?
  {
    var padded := PaddedTarSize(stated).value;
    BlocksMonotone(stated, |payload|);
    assert |Padded(payload)| == PaddedTarSize(|payload|).value;
    hide Padded, PaddedTarSize;
  }

  /** A header block in the archive is read as its fields, and its data is bounded by what follows. */
  lemma AdvanceOverHeader(archive: Bytes, s: State, h: HeaderFields, payload: Bytes)
    requires s.offset <= |archive| <= MAX_INT64 - BLOCK && h.Valid() && h.size <= |payload|
    requires At(archive, s.offset, h.Block() + Padded(payload))
    ensures var data := s.offset + BLOCK;
            var header := Header(h.FullName(), EffectiveType(h.typeflag, h.FullName()), h.size, h.mode);
      && At(archive, data, Padded(payload))
      && DataEnd(data, h.size, |archive|).Some?
      && Advance(archive, s) == Dispatch(archive, s, header, data, DataEnd(data, h.size, |archive|).value)
  {
    hide HeaderFields.Block, Padded, HeaderOf, IsZero, Dispatch, DataEnd, PaddedTarSize;
    AtSplits(archive, s.offset, h.Block(), Padded(payload));
    HeaderRoundTrip(h);
    SmallerDataEnds(s.offset + BLOCK, h.size, payload, |archive|);
  }

  lemma DispatchPax(archive: Bytes, s: State, h: Header, data: nat, end: nat, payload: Bytes, records: Records)
    requires data <= data + h.size <= end <= |archive| <= MAX_INT64 && h.typeflag == TYPE_PAX
    requires archive[data..data + h.size] == payload && AllRecords(payload, map[]) == Some(records)
    ensures Dispatch(archive, s, h, data, end) == Next(s.(pending := records, offset := end))
  {
    hide AllRecords, DataEnd, EntryOf, EntrySize;
  }

  lemma PayloadAt(archive: Bytes, data: nat, payload: Bytes)
    requires At(archive, data, Padded(payload))
    ensures data + |payload| <= |archive| && archive[data..data + |payload|] == payload
  {
    hide Padded;
    assert archive[data..data + |Padded(payload)|][..|payload|] == archive[data..data + |payload|];
  }

  /** Reading over a pax header makes its records pending. */
  lemma AdvanceOverPax(archive: Bytes, s: State, item: Item, layout: Layout)
    requires s.offset <= |archive| <= MAX_INT64 - BLOCK && Writable(item, layout) && (layout.paxPath || layout.paxSize)
    requires At(archive, s.offset, PaxPart(item, layout))
    ensures Advance(archive, s) ==
            Next(s.(pending := Folded(Extras(item, layout), map[]), offset := s.offset + |PaxPart(item, layout)|))
  {
    hide Advance, Dispatch, HeaderFields.Block, PaxPayload, Extras, Folded, DataEnd, AllRecords, CleanEntryName, Padded,
      HeaderFields.Valid, At;
    var payload, data, h := PaxPayload(item, layout), s.offset + BLOCK, layout.paxHeader;
    AdvanceOverHeader(archive, s, h, payload);
    DataEndsAt(data, payload, |archive|) by { WithinArchive(archive, data, Padded(payload)); }
    PayloadAt(archive, data, payload);
    ExtrasRoundTrip(item, layout);
    var header := Header(h.FullName(), EffectiveType(h.typeflag, h.FullName()), h.size, h.mode);
    DispatchPax(archive, s, header, data, data + |Padded(payload)|, payload, Folded(Extras(item, layout), map[]));
  }

  lemma WithinArchive(archive: Bytes, offset: nat, chunk: Bytes)
    requires At(archive, offset, chunk)
    ensures offset + |chunk| <= |archive|
  {}

  lemma ExtrasRoundTrip(item: Item, layout: Layout)
    requires |PaxPayload(item, layout)| <= MAX_INT64
    ensures AllRecords(PaxPayload(item, layout), map[]) == Some(Folded(Extras(item, layout), map[]))
  {
    RecordsRoundTrip(Extras(item, layout), map[]);
  }

  lemma FoldedTwo(a: (Bytes, Bytes), b: (Bytes, Bytes))
    ensures Folded([a], map[]) == map[a.0 := a.1]
    ensures Folded([a, b], map[]) == map[a.0 := a.1][b.0 := b.1]
  {
    assert [a, b][1..] == [b];
    assert Folded([b], map[a.0 := a.1]) == map[a.0 := a.1][b.0 := b.1];
  }

  /** The pending records say exactly what the layout put into them. */
  lemma FoldedExtras(item: Item, layout: Layout)
    ensures var records := Folded(Extras(item, layout), map[]);
      && (PATH_KEY in records <==> layout.paxPath) && (SIZE_KEY in records <==> layout.paxSize)
      && (layout.paxPath ==> records[PATH_KEY] == item.name)
      && (layout.paxSize ==> records[SIZE_KEY] == Decimal(|item.data|))
  {
    assert PATH_KEY != SIZE_KEY by { assert PATH_KEY[0] != SIZE_KEY[0]; }
    var path, size := (PATH_KEY, item.name), (SIZE_KEY, Decimal(|item.data|));
    FoldedTwo(path, size);
    FoldedTwo(size, path);
    assert Extras(item, layout) == if layout.paxPath then (if layout.paxSize then [path, size] else [path])
                                   else if layout.paxSize then [size] else [];
  }

  /** With those records pending, an item's own header yields its entry. */
  lemma DispatchItem(archive: Bytes, s: State, item: Item, layout: Layout, data: nat, end: nat)
    requires Writable(item, layout) && s.global == map[] && s.longName == []
    requires s.pending == Folded(Extras(item, layout), map[])
    requires data <= |archive| <= MAX_INT64 && |item.data| <= MAX_INT64 && data + layout.header.size <= end <= |archive|
    requires DataEnd(data, |item.data|, |archive|).Some?
    ensures var h := layout.header;
            var header := Header(h.FullName(), EffectiveType(h.typeflag, h.FullName()), h.size, h.mode);
      Dispatch(archive, s, header, data, end) ==
      Next(State(DataEnd(data, |item.data|, |archive|).value, map[], map[], [], s.entries + [EntryFor(item, data)]))
  {
    hide HeaderFields.Valid, PaxPayload, Extras, Folded, Decimal, DataEnd, CleanEntryName, ParseInt, AllRecords;
    FoldedExtras(item, layout);
    ParseDecimal(|item.data|);
    NameIsNotEmpty(item.name);
    assert s.global + s.pending == s.pending;
    var h := layout.header;
    var header := Header(h.FullName(), EffectiveType(h.typeflag, h.FullName()), h.size, h.mode);
    assert EntryName(s.pending, [], header) == item.name;
    assert EntrySize(s.pending, header) == Some(|item.data|);
  }

  lemma NameIsNotEmpty(name: Bytes)
    requires CleanEntryName(name).Some?
    ensures name != []
  {}

  lemma ReadOver(archive: Bytes, s: State, t: State)
    requires s.offset <= |archive| <= MAX_INT64 && Advance(archive, s) == Next(t)
    ensures t.offset <= |archive| && Read(archive, s) == Read(archive, t)
  {
    hide Advance;
  }

  /** The main header and data of an item, once its pax records are pending. */
  lemma ReadOverMain(archive: Bytes, s: State, item: Item, layout: Layout)
    requires s.offset <= |archive| <= MAX_INT64 - BLOCK && Writable(item, layout)
    requires At(archive, s.offset, layout.header.Block() + Padded(item.data))
    requires s.global == map[] && s.longName == [] && s.pending == Folded(Extras(item, layout), map[])
    ensures var data := s.offset + BLOCK;
            var t := State(data + |Padded(item.data)|, map[], map[], [], s.entries + [EntryFor(item, data)]);
      t.offset <= |archive| && Read(archive, s) == Read(archive, t) && At(archive, data, Padded(item.data))
  {
    hide Advance, Dispatch, HeaderFields.Block, PaxPayload, Extras, Folded, DataEnd, CleanEntryName, Padded, HeaderFields.Valid,
      At, Read, EntryFor;
    var h, data := layout.header, s.offset + BLOCK;
    AdvanceOverHeader(archive, s, h, item.data);
    WithinArchive(archive, data, Padded(item.data));
    DataEndsAt(data, item.data, |archive|);
    DispatchItem(archive, s, item, layout, data, DataEnd(data, h.size, |archive|).value);
    var t := State(data + |Padded(item.data)|, map[], map[], [], s.entries + [EntryFor(item, data)]);
    ReadOver(archive, s, t);
  }

  lemma NoExtras(item: Item, layout: Layout)
    requires Writable(item, layout) && !layout.paxPath && !layout.paxSize
    ensures Folded(Extras(item, layout), map[]) == map[] && PaxPart(item, layout) == []
  {
    hide CleanEntryName, HeaderFields.Valid;
  }

  /** Reading over one item, however it is laid out, adds exactly its entry. */
  lemma ReadOverItem(archive: Bytes, s: State, item: Item, layout: Layout)
    requires s.offset <= |archive| <= MAX_INT64 - BLOCK && Writable(item, layout)
    requires At(archive, s.offset, ItemBytes(item, layout))
    requires s.pending == map[] && s.global == map[] && s.longName == []
    ensures var data := DataOffset(item, layout, s.offset);
            var t := State(s.offset + |ItemBytes(item, layout)|, map[], map[], [], s.entries + [EntryFor(item, data)]);
      t.offset <= |archive| && Read(archive, s) == Read(archive, t) && At(archive, data, Padded(item.data))
    ensures CleanEntryName(item.name).Some?
  {
    hide Advance, HeaderFields.Block, PaxPayload, Extras, Folded, CleanEntryName, Padded, HeaderFields.Valid, At, Read, EntryFor,
      PaxPart;
    var pax, main := PaxPart(item, layout), layout.header.Block() + Padded(item.data);
    assert ItemBytes(item, layout) == pax + main;
    AtSplits(archive, s.offset, pax, main);
    var mid := s.(pending := Folded(Extras(item, layout), map[]), offset := s.offset + |pax|);
    if layout.paxPath || layout.paxSize {
      AdvanceOverPax(archive, s, item, layout);
      ReadOver(archive, s, mid);
    } else {
      NoExtras(item, layout);
      assert mid == s;
    }
    WithinArchive(archive, mid.offset, main);
    ReadOverMain(archive, mid, item, layout);
  }

  lemma Prepend<T>(a: seq<T>, x: T, b: seq<T>)
    ensures a + ([x] + b) == a + [x] + b
  {}

  /** From any item boundary, reading yields the remaining items in order. */
  lemma {:induction false} ReadItems(archive: Bytes, s: State, items: seq<(Item, Layout)>)
    requires s.offset <= |archive| <= MAX_INT64 - BLOCK && AllWritable(items) && At(archive, s.offset, ArchiveOf(items))
    requires s.pending == map[] && s.global == map[] && s.longName == []
    ensures Read(archive, s) == Some(s.entries + Placed(items, s.offset))
    decreases |items|
  {
    hide Read, ItemBytes, At, EntryFor, Writable, Zeros, DataOffset, CleanEntryName;
    if items == [] {
      ZerosFinish(archive, s);
      assert s.entries + Placed(items, s.offset) == s.entries;
    } else {
      var (item, layout) := items[0];
      assert Writable(item, layout);
      AtSplits(archive, s.offset, ItemBytes(item, layout), ArchiveOf(items[1..]));
      ReadOverItem(archive, s, item, layout);
      var entry := EntryFor(item, DataOffset(item, layout, s.offset));
      var t := State(s.offset + |ItemBytes(item, layout)|, map[], map[], [], s.entries + [entry]);
      ReadItems(archive, t, items[1..]);
      Prepend(s.entries, entry, Placed(items[1..], t.offset));
    }
  }

  lemma ZerosFinish(archive: Bytes, s: State)
    requires s.offset <= |archive| <= MAX_INT64 - BLOCK && At(archive, s.offset, Zeros(2 * BLOCK))
    ensures Read(archive, s) == Some(s.entries)
  {
    hide HeaderOf, Dispatch, DataEnd, Wrap64;
    WrapIsHarmless(archive, s);
    var block := archive[s.offset..s.offset + BLOCK];
    assert block == archive[s.offset..s.offset + 2 * BLOCK][..BLOCK];
    assert IsZero(block);
    hide Zeros, At, IsZero;
    assert Advance(archive, s).Finished?;
  }

  /** An entry stands for an item whose data is in its range. */
  ghost predicate Holds(archive: Bytes, e: Entry, item: Item) {
    if item.isDir then e.DirEntry?
    else e.FileEntry? && e.offset + e.size <= |archive| && archive[e.offset..e.offset + e.size] == item.data
  }

  lemma ItemIsThere(archive: Bytes, at: nat, item: Item, layout: Layout)
    requires at <= |archive| <= MAX_INT64 - BLOCK && Writable(item, layout) && At(archive, at, ItemBytes(item, layout))
    ensures CleanEntryName(item.name).Some? && Holds(archive, EntryFor(item, DataOffset(item, layout, at)), item)
  {
    hide At, Writable, CleanEntryName, ItemBytes, DataOffset, Padded, Read;
    ReadOverItem(archive, State(at, map[], map[], [], []), item, layout);
    PayloadAt(archive, DataOffset(item, layout, at), item.data);
  }

  /** The data of every item is where its entry says it is. */
  lemma {:induction false} ItemsAreThere(archive: Bytes, at: nat, items: seq<(Item, Layout)>, i: nat)
    requires AllWritable(items) && i < |items|
    requires at <= |archive| <= MAX_INT64 - BLOCK && At(archive, at, ArchiveOf(items))
    ensures Holds(archive, Placed(items, at)[i], items[i].0)
    decreases |items|
  {
    hide At, Writable, Zeros, CleanEntryName, ItemBytes, DataOffset, Holds, EntryFor;
    var (item, layout) := items[0];
    assert Writable(item, layout);
    AtSplits(archive, at, ItemBytes(item, layout), ArchiveOf(items[1..]));
    if i == 0 {
      ItemIsThere(archive, at, item, layout);
    } else {
      WithinArchive(archive, at + |ItemBytes(item, layout)|, ArchiveOf(items[1..]));
      ItemsAreThere(archive, at + |ItemBytes(item, layout)|, items[1..], i - 1);
    }
  }

  /** The entry carries the item's name without a final slash, the name's first piece as its part, and the item's kind, mode
      and size. */
  ghost predicate Describes(e: Entry, item: Item) {
    && StaysInside(item.name) && e.name == Unslashed(item.name) && BeforeFirstSlash(e.part, e.name) && e.mode == item.mode
    && e.DirEntry? == item.isDir && (e.FileEntry? ==> e.size == |item.data|)
  }

  lemma {:induction false} PlacedDescribe(items: seq<(Item, Layout)>, at: nat, i: nat)
    requires AllWritable(items) && i < |items|
    ensures Describes(Placed(items, at)[i], items[i].0)
    decreases i
  {
    hide CleanEntryName, ItemBytes, DataOffset, StaysInside, Unslashed, BeforeFirstSlash;
    if i == 0 {
      assert Writable(items[0].0, items[0].1);
      CleanExactly(items[0].0.name);
    } else {
      hide Writable, Describes, EntryFor;
      PlacedDescribe(items[1..], at + |ItemBytes(items[0].0, items[0].1)|, i - 1);
    }
  }

  /** Reading undoes writing: for any items in any allowed layout, planning the written archive recovers exactly the
      items in order, and the planned ranges hold exactly their data. */
  lemma ArchiveRoundTrip(items: seq<(Item, Layout)>)
    requires AllWritable(items) && |ArchiveOf(items)| <= MAX_INT64 - BLOCK
    ensures Read(ArchiveOf(items), START) == Some(Placed(items, 0))
    ensures forall i | 0 <= i < |items| ::
              Describes(Placed(items, 0)[i], items[i].0) && Holds(ArchiveOf(items), Placed(items, 0)[i], items[i].0)
  {
    hide *;
    StartIsEmpty();
    var archive := ArchiveOf(items);
    AtSelf(archive);
    ReadItems(archive, START, items);
    assert START.entries + Placed(items, 0) == Placed(items, 0);
    forall i | 0 <= i < |items|
      ensures Describes(Placed(items, 0)[i], items[i].0) && Holds(archive, Placed(items, 0)[i], items[i].0)
    {
      ItemsAreThere(archive, 0, items, i);
      PlacedDescribe(items, 0, i);
    }
  }

  lemma StartIsEmpty()
    ensures START == State(0, map[], map[], [], []) && MAX_INT64 - BLOCK < MAX_INT64
  {}

  lemma AtSelf(archive: Bytes)
    ensures At(archive, 0, archive)
  {}

  const NO_OTHER := OtherFields(Zeros(16), Zeros(12), Zeros(100), Zeros(80), Zeros(12))

  /** A layout that puts both the name and the size into a pax header. */
  function PaxLayout(item: Item): Layout {
    var extras := [(PATH_KEY, item.name), (SIZE_KEY, Decimal(|item.data|))];
    Layout(HeaderFields([], [], if item.isDir then TYPE_DIR else TYPE_REG, item.mode, 0, NO_OTHER),
           HeaderFields([], [], TYPE_PAX, 0, |Written(extras)|, NO_OTHER), true, true)
  }

  /** However long its name and data, an item with a clean name can be written. */
  lemma AnyCleanItemIsWritable(item: Item)
    requires StaysInside(item.name) && (item.isDir ==> item.data == []) && item.mode < 0x1000
    requires PaxLayout(item).paxHeader.size < Power(8, 11)
    ensures Writable(item, PaxLayout(item))
  {
    Powers();
    CleanExactly(item.name);
    hide StaysInside, CleanEntryName, Written, Power, Decimal;
    assert Extras(item, PaxLayout(item)) == [(PATH_KEY, item.name), (SIZE_KEY, Decimal(|item.data|))];
  }
}
