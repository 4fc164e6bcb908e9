/** Planning the extraction of a finished tar archive: one pass over its headers with int64 offsets. */
module TarReader {
  import opened Results
  import opened TarNumbers
  import opened PaxRecords

  const BLOCK := 512

  const TYPE_REG: Byte := 48        // '0'
  const TYPE_REG_A: Byte := 0
  const TYPE_DIR: Byte := 53        // '5'
  const TYPE_PAX: Byte := 120       // 'x'
  const TYPE_PAX_GLOBAL: Byte := 103 // 'g'
  const TYPE_LONG_NAME: Byte := 76  // 'L'
  const TYPE_LONG_LINK: Byte := 75  // 'K'

  const SLASH: Byte := 47
  const BACKSLASH: Byte := 92
  const DOT: Byte := 46

  const PATH_KEY: Bytes := [112, 97, 116, 104]  // "path"
  const SIZE_KEY: Bytes := [115, 105, 122, 101] // "size"

  datatype Header = Header(name: Bytes, typeflag: Byte, size: nat, mode: nat)

  // ---- headers ----

  function ByteSum(bs: Bytes): nat {
    if bs == [] then 0 else ByteSum(bs[..|bs| - 1]) + bs[|bs| - 1]
  }

  /** The sum of a header block with its checksum field read as spaces. */
  function Checksum(block: Bytes): nat
    requires |block| == BLOCK
  {
    ByteSum(block[..148]) + 8 * SPACE + ByteSum(block[156..])
  }

  method VerifyTarHeaderChecksum(block: Bytes) returns (ok: bool)
    requires |block| == BLOCK
    ensures ok <==> OctalMeaning(block[148..156]) == Some(Checksum(block))
  {
    var expected := ParseTarOctal(block[148..156]);
    if expected.None? { return false; }
    var actual, i := 0, 0;
    while i < |block|
      invariant 0 <= i <= |block|
      invariant actual == if i <= 148 then ByteSum(block[..i])
                          else if i <= 156 then ByteSum(block[..148]) + (i - 148) * SPACE
                          else ByteSum(block[..148]) + 8 * SPACE + ByteSum(block[156..i])
    {
      if 148 <= i < 156 {
        actual := actual + SPACE;
      } else {
        if i < 148 { assert block[..i + 1][..i] == block[..i]; }
        else {
          assert block[156..i + 1][..i - 156] == block[156..i];
          if i == 156 { assert block[156..i] == []; }
        }
        actual := actual + block[i];
      }
      i := i + 1;
    }
    assert block[156..i] == block[156..];
    return expected.value == actual;
  }

  /** Text up to the first NUL. */
  function TarString(field: Bytes): Bytes {
    field[..IndexOf(field, 0)]
  }

  function HeaderName(block: Bytes): Bytes
    requires |block| == BLOCK
  {
    var name, prefix := TarString(block[0..100]), TarString(block[345..500]);
    if prefix != [] then prefix + [SLASH] + name else name
  }

  function EffectiveType(typeflag: Byte, name: Bytes): Byte {
    if typeflag == TYPE_REG_A && name != [] && name[|name| - 1] == SLASH then TYPE_DIR else typeflag
  }

  /** What a header block says, if its checksum and numbers are sound. */
  function HeaderOf(block: Bytes): Option<Header>
    requires |block| == BLOCK
  {
    var mode, size := NumericMeaning(block[100..108]), NumericMeaning(block[124..136]);
    if OctalMeaning(block[148..156]) != Some(Checksum(block)) || mode.None? || size.None? then None
    else Some(Header(HeaderName(block), EffectiveType(block[156], HeaderName(block)), size.value, mode.value % 0x1000))
  }

  method ParseRawTarHeader(block: Bytes) returns (header: Option<Header>)
    requires |block| == BLOCK
    ensures header == HeaderOf(block)
  {
    hide NumericMeaning, OctalMeaning, Checksum;
    var ok := VerifyTarHeaderChecksum(block);
    if !ok { return None; }
    var mode := ParseTarNumeric(block[100..108]);
    if mode.None? { return None; }
    var size := ParseTarNumeric(block[124..136]);
    if size.None? { return None; }
    var name := HeaderName(block);
    return Some(Header(name, EffectiveType(block[156], name), size.value, mode.value % 0x1000));
  }

  function PaddedTarSize(size: nat): (r: Option<nat>)
    ensures r.None? <==> size + BLOCK - 1 > MAX_INT64
    ensures r.Some? ==> size <= r.value < size + BLOCK && r.value % BLOCK == 0 && r.value <= MAX_INT64
  {
    if size > MAX_INT64 - (BLOCK - 1) then None else Some((size + BLOCK - 1) / BLOCK * BLOCK)
  }

  // ---- entry names ----

  datatype CleanName = CleanName(name: Bytes, part: Bytes)

  predicate SpacesOnly(s: Bytes) {
    forall i | 0 <= i < |s| :: s[i] in {9, 10, 11, 12, 13, 32}
  }

  function Segments(s: Bytes): (segments: seq<Bytes>)
    ensures segments != []
    decreases |s|
  {
    var i := IndexOf(s, SLASH);
    if i == |s| then [s] else [s[..i]] + Segments(s[i + 1..])
  }

  predicate HasBadSegment(segments: seq<Bytes>) {
    exists i | 0 <= i < |segments| :: segments[i] == [] || segments[i] == [DOT] || segments[i] == [DOT, DOT]
  }

  /** A relative name without empty, "." or ".." segments, a final slash dropped, and its first segment. */
  function CleanEntryName(name: Bytes): Option<CleanName> {
    if SpacesOnly(name) || name[0] == SLASH || BACKSLASH in name then None
    else
      var trimmed := if name[|name| - 1] == SLASH then name[..|name| - 1] else name;
      var segments := Segments(trimmed);
      if HasBadSegment(segments) then None
      else Some(CleanName(trimmed, segments[0]))
  }

  /** The text between two slashes, or between a slash and an end of the name. */
  predicate PieceAt(s: Bytes, i: int, j: int) {
    0 <= i <= j <= |s| && (i == 0 || s[i - 1] == 47) && (j == |s| || s[j] == 47) && forall k | i <= k < j :: s[k] != 47
  }

  ghost predicate IsPiece(s: Bytes, piece: Bytes) {
    exists i, j :: PieceAt(s, i, j) && s[i..j] == piece
  }

  lemma {:induction false} SegmentsArePieces(s: Bytes)
    ensures forall piece :: piece in Segments(s) <==> IsPiece(s, piece)
    ensures Segments(s)[0] == s[..IndexOf(s, SLASH)]
    decreases |s|
  {
    var n := IndexOf(s, SLASH);
    forall k | 0 <= k < n ensures s[k] != SLASH { assert s[k] == s[..n][k]; }
    if n == |s| {
      assert s[..n] == s && PieceAt(s, 0, n) && s[0..n] == s;
      forall i, j | PieceAt(s, i, j) ensures i == 0 && j == n {}
    } else {
      var rest := s[n + 1..];
      SegmentsArePieces(rest);
      hide IndexOf;
      assert PieceAt(s, 0, n) && s[0..n] == s[..n];
      forall piece ensures piece in Segments(s) <==> IsPiece(s, piece) {
        PiecesBehind(s, n, piece);
        hide IsPiece;
        assert Segments(s) == [s[..n]] + Segments(rest);
      }
    }
  }

  /** Behind the first slash the pieces are those of the rest. */
  lemma PiecesBehind(s: Bytes, n: nat, piece: Bytes)
    requires n < |s| && s[n] == SLASH && forall k | 0 <= k < n :: s[k] != SLASH
    ensures IsPiece(s, piece) <==> piece == s[..n] || IsPiece(s[n + 1..], piece)
  {
    var rest := s[n + 1..];
    if i, j :| PieceAt(s, i, j) && s[i..j] == piece {
      if i == 0 {
        assert j == n && s[0..n] == s[..n];
      } else {
        assert i >= n + 1;
        assert PieceAt(rest, i - n - 1, j - n - 1) && rest[i - n - 1..j - n - 1] == piece;
      }
    }
    if i, j :| PieceAt(rest, i, j) && rest[i..j] == piece {
      assert PieceAt(s, i + n + 1, j + n + 1) && s[i + n + 1..j + n + 1] == piece;
    }
    assert PieceAt(s, 0, n) && s[0..n] == s[..n];
  }

  /** The name without one final slash. */
  function Unslashed(name: Bytes): Bytes {
    if name != [] && name[|name| - 1] == 47 then name[..|name| - 1] else name
  }

  /** A name that stays inside the target: it is not blank, does not start with a slash, has no backslash, and no piece of it,
      one final slash dropped, is empty, "." or "..". */
  ghost predicate StaysInside(name: Bytes) {
    && (exists i | 0 <= i < |name| :: name[i] !in {9, 10, 11, 12, 13, 32})
    && name[0] != 47
    && (forall i | 0 <= i < |name| :: name[i] != 92)
    && PiecesAreNames(Unslashed(name))
  }

  ghost predicate PiecesAreNames(s: Bytes) {
    forall i, j | PieceAt(s, i, j) :: s[i..j] != [] && s[i..j] != [46] && s[i..j] != [46, 46]
  }

  lemma SegmentsAreNames(s: Bytes)
    ensures PiecesAreNames(s) <==> !HasBadSegment(Segments(s))
  {
    SegmentsArePieces(s);
    var segments := Segments(s);
    hide Segments, IsPiece;
    PiecesAvoid(s, []);
    PiecesAvoid(s, [DOT]);
    PiecesAvoid(s, [DOT, DOT]);
    hide PieceAt;
    assert HasBadSegment(segments) <==> [] in segments || [DOT] in segments || [DOT, DOT] in segments;
  }

  /** `part` is the text of `name` before its first slash. */
  predicate BeforeFirstSlash(part: Bytes, name: Bytes) {
    && part <= name && (|part| == |name| || name[|part|] == 47)
    && forall i | 0 <= i < |part| :: part[i] != 47
  }

  /** Exactly which entry names are accepted, and what they are taken to say. */
  lemma CleanExactly(name: Bytes)
    ensures CleanEntryName(name).Some? <==> StaysInside(name)
    ensures CleanEntryName(name).Some? ==>
              CleanEntryName(name).value.name == Unslashed(name) && BeforeFirstSlash(CleanEntryName(name).value.part, Unslashed(name))
  {
    var trimmed := Unslashed(name);
    SegmentsAreNames(trimmed);
    SegmentsArePieces(trimmed);
    FrontHasNone(trimmed);
    hide Segments, IsPiece, PiecesAreNames, HasBadSegment, IndexOf, BeforeFirstSlash;
    assert BACKSLASH in name <==> exists i | 0 <= i < |name| :: name[i] == BACKSLASH;
    assert SpacesOnly(name) <==> !exists i | 0 <= i < |name| :: name[i] !in {9, 10, 11, 12, 13, 32};
    if !SpacesOnly(name) { assert trimmed == if name[|name| - 1] == SLASH then name[..|name| - 1] else name; }
  }

  lemma PiecesAvoid(s: Bytes, piece: Bytes)
    ensures !IsPiece(s, piece) <==> forall i, j | PieceAt(s, i, j) :: s[i..j] != piece
  {
    hide PieceAt;
  }

  lemma FrontHasNone(s: Bytes)
    ensures BeforeFirstSlash(s[..IndexOf(s, SLASH)], s)
  {
    var n := IndexOf(s, SLASH);
    forall k | 0 <= k < n ensures s[..n][k] != SLASH {}
  }

  // ---- the pass ----

  datatype Entry =
    | FileEntry(name: Bytes, part: Bytes, offset: nat, size: nat, mode: nat)
    | DirEntry(name: Bytes, part: Bytes, mode: nat)

  datatype State = State(offset: nat, pending: Records, global: Records, longName: Bytes, entries: seq<Entry>)

  const START := State(0, map[], map[], [], [])

  datatype Step = Finished | Broken | Next(state: State)

  predicate IsZero(block: Bytes) {
    forall i | 0 <= i < |block| :: block[i] == 0
  }

  function WithoutTrailingZeros(s: Bytes): Bytes {
    if s != [] && s[|s| - 1] == 0 then WithoutTrailingZeros(s[..|s| - 1]) else s
  }

  /** Where an entry's data ends, or None when the int64 sum wraps or runs past the archive. */
  function DataEnd(dataOffset: nat, size: nat, archiveSize: nat): (r: Option<nat>)
    requires dataOffset <= archiveSize <= MAX_INT64
    ensures r.Some? ==> PaddedTarSize(size).Some? && r.value == dataOffset + PaddedTarSize(size).value <= archiveSize
    ensures r.None? ==> PaddedTarSize(size).None? || dataOffset + PaddedTarSize(size).value > archiveSize
  {
    var padded := PaddedTarSize(size);
    if padded.None? then None
    else
      var end := Wrap64(dataOffset + padded.value);
      if end < dataOffset || end > archiveSize then None else Some(end)
  }

  /** The pax size of an entry if it has one, else the header's. */
  function EntrySize(records: Records, header: Header): Option<nat> {
    if SIZE_KEY !in records || records[SIZE_KEY] == [] then Some(header.size)
    else
      var size := ParseInt(records[SIZE_KEY]);
      if size.None? || size.value < 0 then None else Some(size.value)
  }

  function EntryName(records: Records, longName: Bytes, header: Header): Bytes {
    if PATH_KEY in records && records[PATH_KEY] != [] then records[PATH_KEY]
    else if longName != [] then longName
    else header.name
  }

  /** A directory or a regular file; anything else is refused. */
  function EntryOf(header: Header, records: Records, longName: Bytes, offset: nat, size: nat): Option<Entry> {
    var clean := CleanEntryName(EntryName(records, longName, header));
    if clean.None? then None
    else if header.typeflag == TYPE_DIR then Some(DirEntry(clean.value.name, clean.value.part, header.mode))
    else if header.typeflag == TYPE_REG || header.typeflag == TYPE_REG_A
    then Some(FileEntry(clean.value.name, clean.value.part, offset, size, header.mode))
    else None
  }

  /** One turn of the pass. */
  function Advance(archive: Bytes, s: State): (step: Step)
    requires s.offset <= |archive| <= MAX_INT64
    ensures step.Next? ==> s.offset + BLOCK <= step.state.offset <= |archive|
  {
    if Wrap64(s.offset + BLOCK) > |archive| then (if s.offset == |archive| then Finished else Broken)
    else if s.offset + BLOCK > |archive| then Broken // reading past the end fails
    else
      var block := archive[s.offset..s.offset + BLOCK];
      if IsZero(block) then Finished
      else
        var data := s.offset + BLOCK;
        var header := HeaderOf(block);
        if header.None? then Broken
        else
          var end := DataEnd(data, header.value.size, |archive|);
          if end.None? then Broken
          else Dispatch(archive, s, header.value, data, end.value)
  }

  function Dispatch(archive: Bytes, s: State, h: Header, data: nat, end: nat): (step: Step)
    requires data <= data + h.size <= end <= |archive| <= MAX_INT64
    ensures step.Next? ==> data <= step.state.offset <= |archive|
  {
    var payload := archive[data..data + h.size];
    if h.typeflag == TYPE_PAX then
      var records := AllRecords(payload, map[]);
      if records.None? then Broken else Next(s.(pending := records.value, offset := end))
    else if h.typeflag == TYPE_PAX_GLOBAL then
      var records := AllRecords(payload, map[]);
      if records.None? then Broken else Next(s.(global := s.global + records.value, offset := end))
    else if h.typeflag == TYPE_LONG_NAME then
      Next(s.(longName := WithoutTrailingZeros(payload), offset := end))
    else if h.typeflag == TYPE_LONG_LINK then
      Next(s.(offset := end))
    else
      var records := s.global + s.pending;
      var size := EntrySize(records, h);
      if size.None? then Broken
      else
        var last := DataEnd(data, size.value, |archive|);
        if last.None? then Broken
        else
          var entry := EntryOf(h, records, s.longName, data, size.value);
          if entry.None? then Broken
          else Next(State(last.value, map[], s.global, [], s.entries + [entry.value]))
  }

  /** The entries of an archive from a state on; None when the archive is refused. */
  function Read(archive: Bytes, s: State): Option<seq<Entry>>
    requires s.offset <= |archive| <= MAX_INT64
    decreases |archive| - s.offset
  {
    var step := Advance(archive, s);
    match step
    case Finished => Some(s.entries)
    case Broken => None
    case Next(s') => Read(archive, s')
  }

  /** The planner: separate variables updated in a loop, ending on every input. */
  method PlanFinishedTar(archive: Bytes) returns (entries: Option<seq<Entry>>, parts: set<Bytes>)
    requires |archive| <= MAX_INT64
    ensures entries == Read(archive, START)
    ensures entries.Some? ==> parts == set e | e in entries.value :: e.part
  {
    hide HeaderOf, AllRecords, EntryOf, EntrySize, CleanEntryName, ParseInt, WithoutTrailingZeros, Wrap64, DataEnd, IsZero;
    var offset: nat, found: seq<Entry> := 0, [];
    var pendingPAX: Records, globalPAX: Records, pendingLongName: Bytes := map[], map[], [];
    parts := {};
    while true
      invariant offset <= |archive|
      invariant Read(archive, State(offset, pendingPAX, globalPAX, pendingLongName, found)) == Read(archive, START)
      invariant parts == set e | e in found :: e.part
      decreases |archive| - offset
    {
      ghost var s := State(offset, pendingPAX, globalPAX, pendingLongName, found);
      if Wrap64(offset + BLOCK) > |archive| {
        if offset == |archive| { return Some(found), parts; }
        return None, parts;
      }
      if offset + BLOCK > |archive| { return None, parts; }
      var block := archive[offset..offset + BLOCK];
      if IsZero(block) { return Some(found), parts; }
      var dataOffset := offset + BLOCK;
      var header := ParseRawTarHeader(block);
      if header.None? { return None, parts; }
      var h := header.value;
      var nextOffset := DataEnd(dataOffset, h.size, |archive|);
      if nextOffset.None? { return None, parts; }
      if h.typeflag == TYPE_PAX || h.typeflag == TYPE_PAX_GLOBAL {
        var records := ReadPAXRecords(archive[dataOffset..dataOffset + h.size]);
        if records.None? { return None, parts; }
        if h.typeflag == TYPE_PAX { pendingPAX := records.value; } else { globalPAX := globalPAX + records.value; }
        offset := nextOffset.value;
        continue;
      }
      if h.typeflag == TYPE_LONG_NAME {
        pendingLongName := WithoutTrailingZeros(archive[dataOffset..dataOffset + h.size]);
        offset := nextOffset.value;
        continue;
      }
      if h.typeflag == TYPE_LONG_LINK {
        offset := nextOffset.value;
        continue;
      }
      var records := globalPAX + pendingPAX;
      var size := EntrySize(records, h);
      if size.None? { return None, parts; }
      nextOffset := DataEnd(dataOffset, size.value, |archive|);
      if nextOffset.None? { return None, parts; }
      var entry := EntryOf(h, records, pendingLongName, dataOffset, size.value);
      if entry.None? { return None, parts; }
      pendingPAX, pendingLongName := map[], [];
      found, parts := found + [entry.value], parts + {entry.value.part};
      offset := nextOffset.value;
    }
  }

  // ---- the planned ranges ----

  function RangeEnd(e: Entry): nat {
    if e.FileEntry? then e.offset + e.size else 0
  }

  /** Every file's range lies in the archive behind a header, at a block boundary, after every earlier range. */
  ghost predicate RangesSafe(entries: seq<Entry>, limit: nat) {
    && (forall i | 0 <= i < |entries| && entries[i].FileEntry? ::
          entries[i].offset % BLOCK == 0 && entries[i].offset >= BLOCK && RangeEnd(entries[i]) <= limit)
    && (forall i, j | 0 <= i < j < |entries| && entries[i].FileEntry? && entries[j].FileEntry? ::
          RangeEnd(entries[i]) + BLOCK <= entries[j].offset)
  }

  lemma AdvanceIsSafe(archive: Bytes, s: State)
    requires s.offset <= |archive| <= MAX_INT64 && s.offset % BLOCK == 0 && RangesSafe(s.entries, s.offset)
    requires Advance(archive, s).Next?
    ensures var t := Advance(archive, s).state;
      t.offset % BLOCK == 0 && RangesSafe(t.entries, t.offset)
  {
    hide HeaderOf, AllRecords, EntrySize, CleanEntryName, ParseInt, WithoutTrailingZeros, Wrap64, DataEnd, IsZero, PaddedTarSize;
    var data, t := s.offset + BLOCK, Advance(archive, s).state;
    assert data % BLOCK == 0;
    forall i | 0 <= i < |s.entries| ensures t.entries[i] == s.entries[i] {}
  }

  /** For arbitrary bytes: whatever the plan copies lies inside the archive, aligned, increasing and disjoint. */
  lemma {:induction false} PlanIsSafe(archive: Bytes, s: State)
    requires s.offset <= |archive| <= MAX_INT64 && s.offset % BLOCK == 0 && RangesSafe(s.entries, s.offset)
    requires Read(archive, s).Some?
    ensures RangesSafe(Read(archive, s).value, |archive|)
    decreases |archive| - s.offset
  {
    hide Advance;
    var step := Advance(archive, s);
    if step.Next? {
      AdvanceIsSafe(archive, s);
      PlanIsSafe(archive, step.state);
    }
  }

  /** The header check of the loop wraps only at the very end of int64, where reading the block fails anyway. */
  lemma WrapIsHarmless(archive: Bytes, s: State)
    requires s.offset <= |archive| <= MAX_INT64
    ensures s.offset + BLOCK <= MAX_INT64 ==>
              (Wrap64(s.offset + BLOCK) > |archive| <==> s.offset + BLOCK > |archive|)
    ensures s.offset + BLOCK > MAX_INT64 ==> Advance(archive, s).Broken?
  {}

  // ---- the planned names ----

  /** No piece of the name leads out of the target, there is no backslash, and the part is the first piece. */
  ghost predicate NamedInside(e: Entry) {
    && PiecesAreNames(e.name) && (forall i | 0 <= i < |e.name| :: e.name[i] != 92)
    && BeforeFirstSlash(e.part, e.name) && e.part != [] && e.part != [46] && e.part != [46, 46]
  }

  lemma FirstPieceIsName(part: Bytes, name: Bytes)
    requires PiecesAreNames(name) && BeforeFirstSlash(part, name)
    ensures part != [] && part != [46] && part != [46, 46]
  {
    assert forall k | 0 <= k < |part| :: name[k] == part[k];
    assert PieceAt(name, 0, |part|) && name[0..|part|] == part;
  }

  lemma EntryNamedInside(header: Header, records: Records, longName: Bytes, offset: nat, size: nat)
    requires EntryOf(header, records, longName, offset, size).Some?
    ensures NamedInside(EntryOf(header, records, longName, offset, size).value)
  {
    var name := EntryName(records, longName, header);
    CleanExactly(name);
    hide CleanEntryName, EntryName, PiecesAreNames, BeforeFirstSlash;
    var clean := CleanEntryName(name).value;
    assert forall i | 0 <= i < |clean.name| :: clean.name[i] == name[i];
    FirstPieceIsName(clean.part, clean.name);
  }

  lemma DispatchNamesInside(archive: Bytes, s: State, h: Header, data: nat, end: nat)
    requires data <= data + h.size <= end <= |archive| <= MAX_INT64 && Dispatch(archive, s, h, data, end).Next?
    requires forall e | e in s.entries :: NamedInside(e)
    ensures forall e | e in Dispatch(archive, s, h, data, end).state.entries :: NamedInside(e)
  {
    hide NamedInside, AllRecords, EntrySize, EntryOf, WithoutTrailingZeros, DataEnd;
    var records := s.global + s.pending;
    if EntrySize(records, h).Some? && EntryOf(h, records, s.longName, data, EntrySize(records, h).value).Some? {
      EntryNamedInside(h, records, s.longName, data, EntrySize(records, h).value);
    }
  }

  lemma AdvanceNamesInside(archive: Bytes, s: State)
    requires s.offset <= |archive| <= MAX_INT64 && Advance(archive, s).Next?
    requires forall e | e in s.entries :: NamedInside(e)
    ensures forall e | e in Advance(archive, s).state.entries :: NamedInside(e)
  {
    hide NamedInside, HeaderOf, Wrap64, IsZero, Dispatch, PaddedTarSize;
    var h, data := HeaderOf(archive[s.offset..s.offset + BLOCK]).value, s.offset + BLOCK;
    DispatchNamesInside(archive, s, h, data, DataEnd(data, h.size, |archive|).value);
  }

  /** For arbitrary bytes: no planned entry is extracted outside the target, and every part is a single path piece. */
  lemma {:induction false} PlanStaysInside(archive: Bytes, s: State)
    requires s.offset <= |archive| <= MAX_INT64 && Read(archive, s).Some?
    requires forall e | e in s.entries :: NamedInside(e)
    ensures forall e | e in Read(archive, s).value :: NamedInside(e)
    decreases |archive| - s.offset
  {
    hide Advance, NamedInside;
    var step := Advance(archive, s);
    if step.Next? {
      AdvanceNamesInside(archive, s);
      PlanStaysInside(archive, step.state);
    }
  }

  // ---- what an entry says ----

  /** Where an entry's name comes from: the pax path, else the long name, else the header; an empty one counts as none. */
  lemma NameSource(records: Records, longName: Bytes, header: Header)
    ensures EntryName(records, longName, header) ==
              if [112, 97, 116, 104] in records && records[[112, 97, 116, 104]] != [] then records[[112, 97, 116, 104]]
              else if longName != [] then longName
              else header.name
  {}

  /** An entry is a directory for type '5' and a file for type '0' or NUL; every other type and every name that leads outside
      is refused. */
  lemma EntryExactly(header: Header, records: Records, longName: Bytes, offset: nat, size: nat)
    ensures var name := EntryName(records, longName, header);
            var entry := EntryOf(header, records, longName, offset, size);
      && (entry.Some? <==> StaysInside(name) && header.typeflag in {0, 48, 53})
      && (entry.Some? ==>
            && entry.value.name == Unslashed(name) && BeforeFirstSlash(entry.value.part, Unslashed(name))
            && entry.value.mode == header.mode
            && if header.typeflag == 53 then entry.value.DirEntry?
               else entry.value.FileEntry? && entry.value.offset == offset && entry.value.size == size)
  {
    CleanExactly(EntryName(records, longName, header));
    hide CleanEntryName, EntryName, StaysInside, BeforeFirstSlash;
  }

  /** The size is the header's, unless a pax record gives another; that must be a number and not negative. */
  lemma SizeSource(records: Records, header: Header)
    ensures var key: Bytes := [115, 105, 122, 101];
      EntrySize(records, header) ==
        if key !in records || records[key] == [] then Some(header.size)
        else if ParseInt(records[key]).Some? && ParseInt(records[key]).value >= 0 then Some(ParseInt(records[key]).value)
        else None
  {
    hide ParseInt;
  }

  lemma {:induction false} ZerosDropped(s: Bytes)
    ensures WithoutTrailingZeros(s) <= s
    ensures WithoutTrailingZeros(s) != [] ==> WithoutTrailingZeros(s)[|WithoutTrailingZeros(s)| - 1] != 0
    ensures forall i | |WithoutTrailingZeros(s)| <= i < |s| :: s[i] == 0
  {
    if s != [] && s[|s| - 1] == 0 { ZerosDropped(s[..|s| - 1]); }
  }

  /** What each kind of header does to the pass. 'x' replaces the pending records, 'g' adds to the global ones, 'L' sets the long
      name, 'K' is skipped; any other header is an entry, for which pending records override global ones, and uses them up. */
  lemma HeaderKinds(archive: Bytes, s: State, h: Header, data: nat, end: nat)
    requires data <= data + h.size <= end <= |archive| <= MAX_INT64
    ensures var step, payload := Dispatch(archive, s, h, data, end), archive[data..data + h.size];
      match h.typeflag
      case 120 =>
        if AllRecords(payload, map[]).None? then step.Broken?
        else step == Next(State(end, AllRecords(payload, map[]).value, s.global, s.longName, s.entries))
      case 103 =>
        if AllRecords(payload, map[]).None? then step.Broken?
        else step.Next? && step.state.(global := s.global) == s.(offset := end) &&
             step.state.global == s.global + AllRecords(payload, map[]).value
      case 76 => step == Next(State(end, s.pending, s.global, WithoutTrailingZeros(payload), s.entries))
      case 75 => step == Next(State(end, s.pending, s.global, s.longName, s.entries))
      case _ =>
        var records := s.global + s.pending;
        var size := EntrySize(records, h);
        var last := if size.Some? then DataEnd(data, size.value, |archive|) else None;
        var entry := if size.Some? then EntryOf(h, records, s.longName, data, size.value) else None;
        if last.None? || entry.None? then step.Broken?
        else step == Next(State(last.value, map[], s.global, [], s.entries + [entry.value]))
  {
    hide AllRecords, EntrySize, EntryOf, DataEnd, WithoutTrailingZeros;
  }

  /** A NUL type with a name that ends in a slash is a directory. */
  lemma OldDirectories(typeflag: Byte, name: Bytes)
    ensures EffectiveType(typeflag, name) == if typeflag == 0 && name != [] && name[|name| - 1] == 47 then 53 else typeflag
  {}

  // ---- copying ----

  /** Copies a planned range with reads of at most `bufferSize` bytes that may come up short. */
  method CopyFinishedTarPayload(archive: Bytes, offset: nat, size: nat, bufferSize: nat) returns (out: Option<Bytes>)
    requires offset + size <= |archive| && bufferSize > 0
    ensures out.Some? ==> out.value == archive[offset..offset + size]
  {
    var written: Bytes := [];
    while |written| < size
      invariant |written| <= size && written == archive[offset..offset + |written|]
      decreases size - |written|
    {
      var chunk := bufferSize;
      if size - |written| < chunk { chunk := size - |written|; }
      var read: nat, failed: bool := *, *;
      if read > chunk { read := chunk; }
      var from := offset + |written|;
      written := written + archive[from..from + read];
      if failed || read == 0 { return None; }
    }
    return Some(written);
  }
}
