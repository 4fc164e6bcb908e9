/** Reading a backup index: normalizing its entries, checking their order,
    and grouping one table's entries into parts in a single pass. */
module BackupIndex {
  import opened Results
  import opened Ordering
  import opened Text

  const UINT64_MAX := 0xFFFF_FFFF_FFFF_FFFF

  /** One decoded <file> element. */
  datatype XmlFile = XmlFile(name: string, size: nat, checksum: string, dataFile: string, useBase: bool,
                             baseSize: Option<nat>, baseChecksum: string, objectKey: string, encrypted: bool)

  datatype RawFile = RawFile(name: string, size: nat, checksum: string, dataFile: string, baseSize: nat, baseChecksum: string)

  /** path.Clean(name) == name, for a path that does not start at the root. */
  predicate CleanRelative(name: string) {
    var pieces := Split(name, '/');
    name == "." ||
    forall i | 0 <= i < |pieces| ::
      && pieces[i] != "" && pieces[i] != "."
      && (pieces[i] == ".." ==> forall j | 0 <= j < i :: pieces[j] == "..")
  }

  predicate ValidPath(name: string) {
    name != "" && name[0] != '/' && 0 as char !in name && CleanRelative(name)
  }

  function Joined(pieces: seq<string>): string {
    if pieces == [] then "" else if |pieces| == 1 then pieces[0] else pieces[0] + "/" + Joined(pieces[1..])
  }

  predicate HasSlash(piece: string) {
    exists i | 0 <= i < |piece| :: piece[i] == '/'
  }

  lemma SlashWithin(piece: string)
    ensures HasSlash(piece) <==> '/' in piece
  {}

  lemma {:induction false} SplitOfJoined(pieces: seq<string>)
    requires pieces != [] && forall p | p in pieces :: !HasSlash(p)
    ensures Split(Joined(pieces), '/') == pieces
    decreases |pieces|
  {
    SlashWithin(pieces[0]);
    hide Cut, HasSlash;
    if |pieces| == 1 {
      assert Cut(pieces[0], '/').None?;
    } else {
      var rest := Joined(pieces[1..]);
      SplitOfJoined(pieces[1..]);
      assert Joined(pieces) == pieces[0] + ['/'] + rest;
      CutIsFirst(pieces[0], '/', rest);
      assert pieces == [pieces[0]] + pieces[1..];
      hide Joined;
    }
  }

  lemma {:induction false} JoinedSplit(s: string)
    ensures Joined(Split(s, '/')) == s && forall p | p in Split(s, '/') :: !HasSlash(p)
    decreases |s|
  {
    var cut := Cut(s, '/');
    if cut.None? {
      SlashWithin(s);
    } else {
      SlashWithin(cut.value.0);
      JoinedSplit(cut.value.1);
      var pieces := Split(s, '/');
      assert pieces[1..] == Split(cut.value.1, '/');
      assert s == cut.value.0 + "/" + cut.value.1;
    }
  }

  predicate PlainPiece(piece: string) {
    piece != "" && piece != "." && piece != ".." && !HasSlash(piece)
  }

  predicate UpsThenNames(pieces: seq<string>, ups: nat) {
    && ups <= |pieces| && pieces != []
    && (forall i | 0 <= i < ups :: pieces[i] == "..")
    && forall i | ups <= i < |pieces| :: PlainPiece(pieces[i])
  }

  /** A path that is its own shortest form: ".", or some steps up followed by plain names. */
  ghost predicate ShortestForm(name: string) {
    name == "." || exists pieces, ups :: UpsThenNames(pieces, ups) && name == Joined(pieces)
  }

  function LeadingUps(pieces: seq<string>): (ups: nat)
    ensures ups <= |pieces| && (forall i | 0 <= i < ups :: pieces[i] == "..") && (ups < |pieces| ==> pieces[ups] != "..")
  {
    if pieces == [] || pieces[0] != ".." then 0 else 1 + LeadingUps(pieces[1..])
  }

  lemma CleanIsShortest(name: string)
    ensures CleanRelative(name) <==> ShortestForm(name)
  {
    var pieces := Split(name, '/');
    JoinedSplit(name);
    hide Split, Joined, HasSlash;
    if CleanRelative(name) && name != "." {
      var ups := LeadingUps(pieces);
      forall i | ups <= i < |pieces| ensures PlainPiece(pieces[i]) {
        assert pieces[i] in pieces && pieces[ups] != "..";
      }
      assert UpsThenNames(pieces, ups);
    }
    if ShortestForm(name) && name != "." {
      var ps, ups :| UpsThenNames(ps, ups) && name == Joined(ps);
      NoSlashInUps();
      SplitOfJoined(ps);
    }
  }

  lemma NoSlashInUps()
    ensures !HasSlash("..")
  {}

  /** A path is accepted exactly if it is not empty, does not start at the root, has no NUL, and is its own shortest form. */
  lemma PathExactly(name: string)
    ensures ValidPath(name) <==>
              && name != "" && name[0] != '/' && (forall i | 0 <= i < |name| :: name[i] != 0 as char) && ShortestForm(name)
  {
    CleanIsShortest(name);
    hide CleanRelative, ShortestForm;
    assert 0 as char !in name <==> forall i | 0 <= i < |name| :: name[i] != 0 as char;
  }

  function Normalize(x: XmlFile): (r: Option<RawFile>)
    ensures r.Some? ==>
              && r.value.name == x.name != "" && r.value.size == x.size
              && r.value.baseSize <= r.value.size
              && (r.value.size > r.value.baseSize ==> r.value.dataFile != "")
  {
    if !ValidPath(x.name) || (x.dataFile != "" && !ValidPath(x.dataFile)) || x.objectKey != "" || x.encrypted then None
    else if x.size == 0 then Some(RawFile(x.name, 0, x.checksum, x.dataFile, 0, x.baseChecksum))
    else
      var baseSize := if x.baseSize.Some? then x.baseSize.value else if x.useBase then x.size else 0;
      var partial := 0 < baseSize < x.size;
      var baseChecksum := if partial then Lower(Trim(x.baseChecksum)) else x.baseChecksum;
      if x.checksum == "" || baseSize > x.size || (partial && baseChecksum == "") then None
      else
        var dataFile := if x.size > baseSize && x.dataFile == "" then x.name else x.dataFile;
        Some(RawFile(x.name, x.size, Lower(x.checksum), dataFile, baseSize, baseChecksum))
  }

  /** How the element says how much of the file the base backup holds. */
  function BaseSizeOf(x: XmlFile): nat {
    if x.size == 0 then 0 else if x.baseSize.Some? then x.baseSize.value else if x.useBase then x.size else 0
  }

  /** The element that says what a normalized entry says. */
  function AsXml(file: RawFile): XmlFile {
    XmlFile(file.name, file.size, file.checksum, file.dataFile, false, Some(file.baseSize), file.baseChecksum, "", false)
  }

  /** An element is refused exactly for a path that leaves the backup, a feature the reader does not have, a missing
      checksum, or a base larger than the file. */
  lemma NormalizeAccepts(x: XmlFile)
    ensures Normalize(x).Some? <==>
              && ValidPath(x.name) && (x.dataFile == "" || ValidPath(x.dataFile)) && x.objectKey == "" && !x.encrypted
              && (x.size > 0 ==> x.checksum != "")
              && BaseSizeOf(x) <= x.size
              && (0 < BaseSizeOf(x) < x.size ==> !Blank(x.baseChecksum))
  {
    LowerTrim(x.baseChecksum);
    hide Trim, Lower, Blank, ValidPath;
  }

  /** What a normalized entry says: lower-case checksums, the base's without padding where base and own data are joined,
      the base size the element states; and normalizing it again changes nothing. */
  lemma NormalizeIsStable(x: XmlFile)
    requires Normalize(x).Some?
    ensures var r := Normalize(x).value;
      && r.baseSize == BaseSizeOf(x)
      && (r.size > 0 ==> Lowered(r.checksum) && |r.checksum| == |x.checksum| > 0)
      && (0 < r.baseSize < r.size ==> r.baseChecksum != "" && Lowered(r.baseChecksum) && Unpadded(r.baseChecksum))
      && (r.dataFile != x.dataFile ==> x.dataFile == "" && r.dataFile == r.name)
      && Normalize(AsXml(r)) == Some(r)
  {
    LowerTrim(x.baseChecksum);
    LowerChars(x.checksum);
    LowerChars(Lower(x.checksum));
    hide Trim, Lower, Blank, ValidPath, Lowered, Unpadded;
  }

  ghost predicate StrictlySorted(files: seq<RawFile>) {
    forall i, j | 0 <= i < j < |files| :: NameLess(files[i].name, files[j].name)
  }

  /** The entries of a well-formed index. */
  function Entries(index: seq<XmlFile>): (files: seq<RawFile>)
    requires forall x | x in index :: Normalize(x).Some?
    ensures |files| == |index| && forall i | 0 <= i < |index| :: files[i] == Normalize(index[i]).value
  {
    seq(|index|, i requires 0 <= i < |index| => Normalize(index[i]).value)
  }

  ghost predicate WellFormed(index: seq<XmlFile>) {
    (forall x | x in index :: Normalize(x).Some?) && StrictlySorted(Entries(index))
  }

  /** Checking only neighbours is enough. */
  method ScanIndex(index: seq<XmlFile>) returns (files: Option<seq<RawFile>>)
    ensures files.Some? <==> WellFormed(index)
    ensures files.Some? ==> files.value == Entries(index)
  {
    hide Normalize, NameLess;
    var seen: seq<RawFile> := [];
    var lastName := "";
    var i := 0;
    while i < |index|
      invariant 0 <= i == |seen| <= |index|
      invariant forall j | 0 <= j < i :: Normalize(index[j]) == Some(seen[j])
      invariant StrictlySorted(seen)
      invariant lastName == if i == 0 then "" else seen[i - 1].name
    {
      var file := Normalize(index[i]);
      if file.None? {
        assert index[i] in index;
        return None;
      }
      if lastName != "" && !NameLess(lastName, file.value.name) {
        NotSorted(index, i);
        return None;
      }
      Extends(seen, file.value);
      seen := seen + [file.value];
      lastName := file.value.name;
      i := i + 1;
    }
    assert forall x | x in index :: Normalize(x).Some?;
    assert seen == Entries(index);
    return Some(seen);
  }

  lemma NotSorted(index: seq<XmlFile>, i: nat)
    requires 0 < i < |index| && Normalize(index[i - 1]).Some? && Normalize(index[i]).Some?
    requires !NameLess(Normalize(index[i - 1]).value.name, Normalize(index[i]).value.name)
    ensures !WellFormed(index)
  {
    hide Normalize, NameLess;
    if forall x | x in index :: Normalize(x).Some? {
      var files := Entries(index);
      assert !NameLess(files[i - 1].name, files[i].name);
    }
  }

  lemma Extends(files: seq<RawFile>, next: RawFile)
    requires StrictlySorted(files) && (files != [] ==> NameLess(files[|files| - 1].name, next.name))
    ensures StrictlySorted(files + [next])
  {
    hide NameLess;
    forall i | 0 <= i < |files| ensures NameLess(files[i].name, next.name) {
      if i < |files| - 1 { NameTransitive(files[i].name, files[|files| - 1].name, next.name); }
    }
  }

  // ---- one table's entries ----

  /** The table being read, with both names escaped for file names, and the partitions asked for; none asked means all. */
  datatype Query = Query(database: string, table: string, partitions: set<string>) {
    function Prefix(): string { "data/" + database + "/" + table + "/" }
    function MetadataName(): string { "metadata/" + database + "/" + table + ".sql" }
    predicate Includes(part: string) { partitions == {} || PartitionOf(part) in partitions }
  }

  function PartitionOf(part: string): string {
    var cut := Cut(part, '_');
    if cut.None? then part else cut.value.0
  }

  datatype Kind = Metadata | Other | Invalid | InPart(part: string, file: string)

  function KindOf(q: Query, name: string): Kind {
    if name == q.MetadataName() then Metadata
    else if !(q.Prefix() <= name) then Other
    else
      var cut := Cut(name[|q.Prefix()|..], '/');
      if cut.None? || cut.value.0 == "" || cut.value.1 == "" then Invalid
      else if cut.value.0 == "mutations" || !q.Includes(cut.value.0) then Other
      else InPart(cut.value.0, cut.value.1)
  }

  /** A part's partition is the part's name before its first underscore, or all of it. */
  predicate PartitionIs(part: string, id: string) {
    id <= part && (|id| == |part| || part[|id|] == '_') && forall i | 0 <= i < |id| :: id[i] != '_'
  }

  lemma PartitionExactly(part: string, id: string)
    ensures PartitionIs(part, id) <==> id == PartitionOf(part)
  {
    var own := PartitionOf(part);
    assert PartitionIs(part, own) by {
      assert forall i | 0 <= i < |own| :: own[i] in own;
    }
    if PartitionIs(part, id) {
      assert id == part[..|id|] && own == part[..|own|];
    }
  }

  predicate IncludedPart(q: Query, part: string) {
    q.partitions == {} || exists id | id in q.partitions :: PartitionIs(part, id)
  }

  lemma IncludesExactly(q: Query, part: string)
    ensures q.Includes(part) <==> IncludedPart(q, part)
  {
    forall id ensures PartitionIs(part, id) <==> id == PartitionOf(part) { PartitionExactly(part, id); }
    hide PartitionOf, PartitionIs;
  }

  /** The entry's name is the table's data directory, a part, a slash and a file in it. */
  predicate NamesFile(q: Query, name: string, part: string, file: string) {
    && name == "data/" + q.database + "/" + q.table + "/" + part + "/" + file
    && part != "" && file != "" && forall i | 0 <= i < |part| :: part[i] != '/'
  }

  /** Exactly what an entry is to the table: its metadata; a file of an included part; or of no interest, which the entries
      outside the table's data, its mutations and the parts of other partitions are; any other data entry is invalid. */
  lemma KindExactly(q: Query, name: string)
    ensures KindOf(q, name).Metadata? <==> name == "metadata/" + q.database + "/" + q.table + ".sql"
    ensures forall part, file :: KindOf(q, name) == InPart(part, file) <==>
              NamesFile(q, name, part, file) && part != "mutations" && IncludedPart(q, part)
    ensures KindOf(q, name).Invalid? <==>
              "data/" + q.database + "/" + q.table + "/" <= name && forall part, file :: !NamesFile(q, name, part, file)
  {
    assert forall part :: q.Includes(part) <==> IncludedPart(q, part) by {
      forall part ensures q.Includes(part) <==> IncludedPart(q, part) { IncludesExactly(q, part); }
    }
    var prefix := "data/" + q.database + "/" + q.table + "/";
    assert prefix == q.Prefix();
    hide Query.Includes, IncludedPart;
    if prefix <= name {
      DataIsNotMetadata(q, name);
      var rest := name[|prefix|..];
      assert name == prefix + rest;
      forall part, file
        ensures NamesFile(q, name, part, file) <==> Cut(rest, '/') == Some((part, file)) && part != "" && file != ""
      {
        CutNamesFile(q, name, part, file);
      }
      hide Cut, NamesFile;
    } else {
      forall part, file ensures !NamesFile(q, name, part, file) {
        assert prefix + part + "/" + file == prefix + (part + "/" + file);
      }
    }
  }

  lemma CutNamesFile(q: Query, name: string, part: string, file: string)
    requires q.Prefix() <= name
    ensures NamesFile(q, name, part, file) <==>
              Cut(name[|q.Prefix()|..], '/') == Some((part, file)) && part != "" && file != ""
  {
    var prefix := q.Prefix();
    var rest := name[|prefix|..];
    assert name == prefix + rest;
    assert prefix + part + "/" + file == prefix + (part + ['/'] + file);
    assert '/' !in part <==> forall i | 0 <= i < |part| :: part[i] != '/';
    if rest == part + ['/'] + file && '/' !in part { CutIsFirst(part, '/', file); }
    assert name == prefix + (part + ['/'] + file) ==> rest == part + ['/'] + file by {
      assert (prefix + (part + ['/'] + file))[|prefix|..] == part + ['/'] + file;
    }
    hide Cut;
  }

  datatype RawPart = RawPart(name: string, files: seq<RawFile>, bytes: nat)

  predicate Belongs(q: Query, f: RawFile, part: string) {
    KindOf(q, f.name).InPart? && KindOf(q, f.name).part == part
  }

  /** A part's entries in index order, named relative to the part. */
  function FilesOf(q: Query, files: seq<RawFile>, part: string): seq<RawFile> {
    if files == [] then []
    else
      var last := files[|files| - 1];
      FilesOf(q, files[..|files| - 1], part) +
      if Belongs(q, last, part) then [last.(name := KindOf(q, last.name).file)] else []
  }

  function Bytes(files: seq<RawFile>): nat {
    if files == [] then 0 else Bytes(files[..|files| - 1]) + files[|files| - 1].size
  }

  ghost predicate DistinctNames(parts: seq<RawPart>) {
    forall i, j | 0 <= i < j < |parts| :: parts[i].name != parts[j].name
  }

  /** All of the part's files, and their exact total size. */
  ghost predicate Exact(q: Query, files: seq<RawFile>, part: RawPart) {
    part.name != "" && part.files == FilesOf(q, files, part.name) != [] && part.bytes == Bytes(part.files) <= UINT64_MAX
  }

  ghost predicate Covers(q: Query, files: seq<RawFile>, parts: seq<RawPart>) {
    forall f | f in files && KindOf(q, f.name).InPart? :: Emitted(parts, KindOf(q, f.name).part)
  }

  /** `parts` holds every part of the table once, with all of its files and their exact total size. */
  ghost predicate Groups(q: Query, files: seq<RawFile>, parts: seq<RawPart>) {
    DistinctNames(parts) && Covers(q, files, parts) && forall i | 0 <= i < |parts| :: Exact(q, files, parts[i])
  }

  ghost predicate Emitted(parts: seq<RawPart>, name: string) {
    exists i :: 0 <= i < |parts| && parts[i].name == name
  }

  ghost predicate Occurs(q: Query, files: seq<RawFile>, partition: string) {
    exists f | f in files :: KindOf(q, f.name).InPart? && PartitionOf(KindOf(q, f.name).part) == partition
  }

  /** Exactly when a table can be read from an index. */
  ghost predicate Readable(q: Query, files: seq<RawFile>) {
    && (forall f | f in files :: !KindOf(q, f.name).Invalid?)
    && (forall part | part != "" :: Bytes(FilesOf(q, files, part)) <= UINT64_MAX)
    && (exists f | f in files :: f.name == q.MetadataName() && f.size > 0)
    && (forall id | id in q.partitions :: Occurs(q, files, id))
    && (exists f | f in files :: KindOf(q, f.name).InPart?)
  }

  // A part's entries are contiguous.

  lemma BelongsByPrefix(q: Query, f: RawFile, part: string)
    requires Belongs(q, f, part)
    ensures q.Prefix() + part + "/" <= f.name && '/' !in part
  {
    hide Query.Includes, Query.MetadataName, Query.Prefix, PartitionOf, Cut;
    var rest := f.name[|q.Prefix()|..];
    assert f.name == q.Prefix() + rest;
    var cut := Cut(rest, '/').value;
    assert rest == part + ['/'] + cut.1;
    assert f.name == q.Prefix() + part + "/" + cut.1;
  }

  lemma DataIsNotMetadata(q: Query, name: string)
    requires q.Prefix() <= name
    ensures name != q.MetadataName()
  {
    assert q.Prefix()[0] == 'd' && q.MetadataName()[0] == 'm';
  }

  lemma PrefixBelongs(q: Query, f: RawFile, g: RawFile, part: string)
    requires Belongs(q, g, part) && q.Prefix() + part + "/" <= f.name && !KindOf(q, f.name).Invalid?
    ensures Belongs(q, f, part)
  {
    hide Query.Prefix, Query.MetadataName, Cut, Query.Includes;
    BelongsByPrefix(q, g, part);
    var prefix := q.Prefix();
    var tail := f.name[|prefix + part + "/"|..];
    assert f.name == prefix + part + "/" + tail;
    assert prefix <= f.name && f.name[|prefix|..] == part + ['/'] + tail;
    DataIsNotMetadata(q, f.name);
    CutIsFirst(part, '/', tail);
  }

  /** In a strictly sorted index, once an entry of another kind follows a part's entry, the part is complete. */
  lemma PartIsClosed(q: Query, files: seq<RawFile>, k: nat, i: nat, j: nat, part: string)
    requires StrictlySorted(files) && k < i < j < |files|
    requires Belongs(q, files[k], part) && !Belongs(q, files[i], part) && !KindOf(q, files[i].name).Invalid?
    ensures !Belongs(q, files[j], part)
  {
    hide KindOf;
    if Belongs(q, files[j], part) {
      BelongsByPrefix(q, files[k], part);
      BelongsByPrefix(q, files[j], part);
      PrefixInterval(q.Prefix() + part + "/", files[k].name, files[i].name, files[j].name);
      PrefixBelongs(q, files[i], files[j], part);
    }
  }

  // ---- the single pass ----

  lemma FilesOfNext(q: Query, files: seq<RawFile>, i: nat, part: string)
    requires i < |files|
    ensures FilesOf(q, files[..i + 1], part) ==
            FilesOf(q, files[..i], part) + if Belongs(q, files[i], part) then [files[i].(name := KindOf(q, files[i].name).file)] else []
  {
    hide KindOf;
    assert files[..i + 1][..i] == files[..i];
  }

  lemma {:induction false} FilesOfNone(q: Query, files: seq<RawFile>, part: string)
    requires forall f | f in files :: !Belongs(q, f, part)
    ensures FilesOf(q, files, part) == []
  {
    hide KindOf;
    if files != [] { FilesOfNone(q, files[..|files| - 1], part); }
  }

  lemma {:induction false} FilesOfSome(q: Query, files: seq<RawFile>, part: string)
    requires FilesOf(q, files, part) != []
    ensures exists k | 0 <= k < |files| :: Belongs(q, files[k], part)
  {
    hide KindOf;
    if !Belongs(q, files[|files| - 1], part) { FilesOfSome(q, files[..|files| - 1], part); }
  }

  lemma BytesMore(files: seq<RawFile>, f: RawFile)
    ensures Bytes(files + [f]) == Bytes(files) + f.size
  {
    assert (files + [f])[..|files|] == files;
  }

  lemma {:induction false} BytesGrow(q: Query, files: seq<RawFile>, i: nat, part: string)
    requires i <= |files|
    ensures Bytes(FilesOf(q, files[..i], part)) <= Bytes(FilesOf(q, files, part))
    decreases |files| - i
  {
    hide KindOf, Bytes, FilesOf;
    if i < |files| {
      FilesOfNext(q, files, i, part);
      if Belongs(q, files[i], part) { BytesMore(FilesOf(q, files[..i], part), files[i].(name := KindOf(q, files[i].name).file)); }
      assert FilesOf(q, files[..i], part) + [] == FilesOf(q, files[..i], part);
      BytesGrow(q, files, i + 1, part);
    } else {
      assert files[..i] == files;
    }
  }

  const NO_PART := RawPart("", [], 0)

  function WithCurrent(parts: seq<RawPart>, current: RawPart): seq<RawPart> {
    if current.name == "" then parts else parts + [current]
  }

  /** No later entry belongs to a part that was handed on. */
  ghost predicate Closed(q: Query, files: seq<RawFile>, i: nat, parts: seq<RawPart>) {
    forall k, j | 0 <= k < |parts| && i <= j < |files| :: !Belongs(q, files[j], parts[k].name)
  }

  ghost predicate NoneInvalid(q: Query, files: seq<RawFile>) {
    forall f | f in files :: !KindOf(q, f.name).Invalid?
  }

  lemma GroupsSkip(q: Query, files: seq<RawFile>, i: nat, parts: seq<RawPart>)
    requires i < |files| && Groups(q, files[..i], parts) && !KindOf(q, files[i].name).InPart?
    ensures Groups(q, files[..i + 1], parts)
  {
    hide KindOf, FilesOf, Bytes, Emitted;
    forall k | 0 <= k < |parts| ensures FilesOf(q, files[..i + 1], parts[k].name) == FilesOf(q, files[..i], parts[k].name) {
      FilesOfNext(q, files, i, parts[k].name);
    }
    forall f | f in files[..i + 1] && KindOf(q, f.name).InPart? ensures f in files[..i] {}
  }

  /** Handing on the current part keeps the groups and closes the part. */
  lemma CurrentIsClosed(q: Query, files: seq<RawFile>, i: nat, parts: seq<RawPart>, current: RawPart)
    requires StrictlySorted(files) && i < |files| && Groups(q, files[..i], WithCurrent(parts, current))
    requires Closed(q, files, i, parts) && !KindOf(q, files[i].name).Invalid? && !Belongs(q, files[i], current.name)
    ensures Closed(q, files, i, WithCurrent(parts, current))
  {
    hide KindOf, FilesOf, Bytes, Belongs, StrictlySorted, Emitted;
    if current.name != "" {
      var n := |parts|;
      assert WithCurrent(parts, current)[n] == current;
      assert FilesOf(q, files[..i], current.name) != [];
      FilesOfSome(q, files[..i], current.name);
      var k :| 0 <= k < i && Belongs(q, files[..i][k], current.name);
      assert files[..i][k] == files[k];
      forall j | i <= j < |files| ensures !Belongs(q, files[j], current.name) {
        if j > i { PartIsClosed(q, files, k, i, j, current.name); }
      }
    }
  }

  lemma NotEmittedIsEmpty(q: Query, files: seq<RawFile>, parts: seq<RawPart>, part: string)
    requires Groups(q, files, parts) && !Emitted(parts, part)
    ensures FilesOf(q, files, part) == []
  {
    hide KindOf, FilesOf, Bytes, Emitted;
    forall f | f in files ensures !Belongs(q, f, part) {}
    FilesOfNone(q, files, part);
  }

  /** The entry's part after it takes the entry. */
  function Grown(q: Query, current: RawPart, f: RawFile): RawPart
    requires KindOf(q, f.name).InPart?
  {
    var kind := KindOf(q, f.name);
    var file := f.(name := kind.file);
    if current.name == kind.part then RawPart(kind.part, current.files + [file], current.bytes + f.size)
    else RawPart(kind.part, [file], f.size)
  }

  lemma GroupsOthers(q: Query, files: seq<RawFile>, i: nat, parts: seq<RawPart>, part: string)
    requires i < |files| && (forall k | 0 <= k < |parts| :: parts[k].name != part)
    requires KindOf(q, files[i].name).InPart? && KindOf(q, files[i].name).part == part
    ensures forall k | 0 <= k < |parts| :: FilesOf(q, files[..i + 1], parts[k].name) == FilesOf(q, files[..i], parts[k].name)
  {
    hide KindOf, FilesOf;
    forall k | 0 <= k < |parts| ensures FilesOf(q, files[..i + 1], parts[k].name) == FilesOf(q, files[..i], parts[k].name) {
      FilesOfNext(q, files, i, parts[k].name);
    }
  }

  /** The entry's own part holds exactly its files so far. */
  lemma GrownIsExact(q: Query, files: seq<RawFile>, i: nat, before: RawPart)
    requires i < |files| && KindOf(q, files[i].name).InPart?
    requires var part := KindOf(q, files[i].name).part;
      if before.name == part
      then before.files == FilesOf(q, files[..i], part) && before.bytes == Bytes(before.files)
      else FilesOf(q, files[..i], part) == []
    ensures var after := Grown(q, before, files[i]);
      after.files == FilesOf(q, files[..i + 1], after.name) != [] && after.bytes == Bytes(after.files)
  {
    hide KindOf, FilesOf;
    var part := KindOf(q, files[i].name).part;
    var file := files[i].(name := KindOf(q, files[i].name).file);
    FilesOfNext(q, files, i, part);
    BytesMore(FilesOf(q, files[..i], part), file);
    assert Bytes([]) == 0;
  }

  lemma TakeEmits(q: Query, files: seq<RawFile>, i: nat, all: seq<RawPart>, next: seq<RawPart>, part: string)
    requires i < |files| && KindOf(q, files[i].name).InPart? && KindOf(q, files[i].name).part == part
    requires Covers(q, files[..i], all)
    requires Emitted(next, part) && forall k | 0 <= k < |all| :: k < |next| && next[k].name == all[k].name
    ensures Covers(q, files[..i + 1], next)
  {
    hide KindOf;
    forall f | f in files[..i + 1] && KindOf(q, f.name).InPart? ensures Emitted(next, KindOf(q, f.name).part) {
      if f in files[..i] {
        var k :| 0 <= k < |all| && all[k].name == KindOf(q, f.name).part;
        assert next[k].name == KindOf(q, f.name).part;
      }
    }
  }

  lemma ClosedExcludes(q: Query, files: seq<RawFile>, i: nat, parts: seq<RawPart>, part: string)
    requires i < |files| && Belongs(q, files[i], part) && Closed(q, files, i, parts)
    ensures !Emitted(parts, part)
  {
    hide Belongs;
  }

  lemma AppendDistinct(parts: seq<RawPart>, after: RawPart)
    requires DistinctNames(parts) && !Emitted(parts, after.name)
    ensures DistinctNames(parts + [after])
  {}

  lemma FirstNames(parts: seq<RawPart>, current: RawPart)
    requires DistinctNames(WithCurrent(parts, current))
    ensures DistinctNames(parts)
    ensures forall k | 0 <= k < |parts| :: WithCurrent(parts, current)[k] == parts[k]
  {
    forall k | 0 <= k < |parts| ensures WithCurrent(parts, current)[k] == parts[k] {}
    assert parts <= WithCurrent(parts, current);
  }

  lemma GroupsTake(q: Query, files: seq<RawFile>, i: nat, parts: seq<RawPart>, current: RawPart, part: string)
    requires i < |files| && Belongs(q, files[i], part) && part != ""
    requires Groups(q, files[..i], WithCurrent(parts, current)) && Closed(q, files, i, parts)
    requires current.name == part || current.name == ""
    requires Grown(q, current, files[i]).bytes <= UINT64_MAX
    ensures Groups(q, files[..i + 1], parts + [Grown(q, current, files[i])])
  {
    hide KindOf, FilesOf, Bytes, DistinctNames, Covers, Emitted;
    var all, after := WithCurrent(parts, current), Grown(q, current, files[i]);
    var next := parts + [after];
    FirstNames(parts, current);
    ClosedExcludes(q, files, i, parts, part);
    AppendDistinct(parts, after);
    if current.name == part {
      assert all[|parts|] == current;
    } else {
      NotEmittedIsEmpty(q, files[..i], all, part);
    }
    GrownIsExact(q, files, i, current);
    forall k | 0 <= k < |parts| ensures parts[k].name != part { NotEmitted(parts, part, k); }
    GroupsOthers(q, files, i, parts, part);
    assert next[|parts|] == after;
    assert Emitted(next, part) by { EmittedAt(next, |parts|); }
    TakeEmits(q, files, i, all, next, part);
    forall k | 0 <= k < |next| ensures Exact(q, files[..i + 1], next[k]) {
      if k < |parts| { assert Exact(q, files[..i], all[k]); }
    }
  }

  lemma EmittedAt(parts: seq<RawPart>, k: nat)
    requires k < |parts|
    ensures Emitted(parts, parts[k].name)
  {}

  lemma NotEmitted(parts: seq<RawPart>, part: string, k: nat)
    requires k < |parts| && !Emitted(parts, part)
    ensures parts[k].name != part
  {}

  datatype TableScan = TableScan(metadata: RawFile, parts: seq<RawPart>)

  lemma OverflowIsUnreadable(q: Query, files: seq<RawFile>, i: nat, current: RawPart)
    requires i < |files| && KindOf(q, files[i].name).InPart?
    requires Grown(q, current, files[i]).files == FilesOf(q, files[..i + 1], Grown(q, current, files[i]).name)
    requires Bytes(Grown(q, current, files[i]).files) > UINT64_MAX && Grown(q, current, files[i]).name != ""
    ensures !Readable(q, files)
  {
    hide KindOf, FilesOf, Bytes, Grown;
    BytesGrow(q, files, i + 1, Grown(q, current, files[i]).name);
  }

  lemma OneName(files: seq<RawFile>, f: RawFile, g: RawFile)
    requires StrictlySorted(files) && f in files && g in files && f.name == g.name
    ensures f == g
  {
    hide NameLess;
    var i, j :| 0 <= i < |files| && 0 <= j < |files| && files[i] == f && files[j] == g;
    NameIrreflexive(f.name);
  }

  lemma TakePremise(q: Query, files: seq<RawFile>, i: nat, parts: seq<RawPart>, current: RawPart, part: string)
    requires i < |files| && Belongs(q, files[i], part)
    requires Groups(q, files[..i], WithCurrent(parts, current)) && Closed(q, files, i, parts)
    requires current.name == part || current.name == ""
    ensures part != ""
    ensures var after := Grown(q, current, files[i]);
      after.name == part && after.files == FilesOf(q, files[..i + 1], part) && after.bytes == Bytes(after.files)
  {
    assert part != "" by { hide Groups, FilesOf; }
    hide KindOf, FilesOf, Bytes, DistinctNames, Covers, Emitted, Closed;
    var all := WithCurrent(parts, current);
    if current.name == part {
      assert all[|parts|] == current;
    } else {
      ClosedExcludes(q, files, i, parts, part);
      NotEmittedIsEmpty(q, files[..i], all, part);
    }
    GrownIsExact(q, files, i, current);
  }

  ghost function Missing(q: Query, files: seq<RawFile>): set<string> {
    set id | id in q.partitions && !Occurs(q, files, id)
  }

  lemma MissingAfter(q: Query, files: seq<RawFile>, i: nat)
    requires i < |files|
    ensures Missing(q, files[..i + 1]) ==
            Missing(q, files[..i]) - if KindOf(q, files[i].name).InPart? then {PartitionOf(KindOf(q, files[i].name).part)} else {}
  {
    hide KindOf, PartitionOf;
    assert forall f :: f in files[..i + 1] <==> f in files[..i] || f == files[i];
  }

  /** The metadata entry seen so far. */
  ghost predicate Found(q: Query, files: seq<RawFile>, metadata: Option<RawFile>) {
    if metadata.Some? then metadata.value in files && metadata.value.name == q.MetadataName()
    else forall f | f in files :: f.name != q.MetadataName()
  }

  /** One pass over a strictly sorted index hands on each included part once, complete, and accepts exactly the readable tables. */
  method ScanTable(q: Query, files: seq<RawFile>) returns (scan: Option<TableScan>)
    requires StrictlySorted(files)
    ensures scan.Some? <==> Readable(q, files)
    ensures scan.Some? ==> Groups(q, files, scan.value.parts) && Found(q, files, Some(scan.value.metadata))
  {
    hide KindOf, FilesOf, Bytes, Groups, Closed, Missing, Readable, WithCurrent, Grown, StrictlySorted, Belongs, PartitionOf,
      Query.MetadataName;
    var parts, current, metadata, missing := [], NO_PART, None, q.partitions;
    var i := 0;
    NothingScanned(q, files);
    while i < |files|
      invariant 0 <= i <= |files|
      invariant Groups(q, files[..i], WithCurrent(parts, current)) && Closed(q, files, i, parts)
      invariant NoneInvalid(q, files[..i])
      invariant missing == Missing(q, files[..i])
      invariant Found(q, files[..i], metadata)
    {
      var f := files[i];
      assert f in files && files[..i + 1] == files[..i] + [f];
      MissingAfter(q, files, i);
      KindIs(q, f);
      match KindOf(q, f.name) {
        case Invalid =>
          InvalidIsUnreadable(q, files, f);
          return None;
        case Metadata =>
          metadata := Some(f);
          Flush(q, files, i, parts, current);
          parts, current := WithCurrent(parts, current), NO_PART;
        case Other =>
          Flush(q, files, i, parts, current);
          parts, current := WithCurrent(parts, current), NO_PART;
        case InPart(part, _) =>
          missing := missing - {PartitionOf(part)};
          if current.name != part {
            Flush(q, files, i, parts, current);
            parts, current := WithCurrent(parts, current), NO_PART;
          }
          TakePremise(q, files, i, parts, current, part);
          if Grown(q, current, f).bytes > UINT64_MAX {
            OverflowIsUnreadable(q, files, i, current);
            return None;
          }
          GroupsTake(q, files, i, parts, current, part);
          current := Grown(q, current, f);
          CurrentIsLast(parts, current);
      }
      ClosedLater(q, files, i, parts);
      i := i + 1;
    }
    assert files[..i] == files;
    parts := WithCurrent(parts, current);
    ScanEnds(q, files, parts, metadata);
    if metadata.None? || metadata.value.size == 0 || missing != {} || |parts| == 0 { return None; }
    return Some(TableScan(metadata.value, parts));
  }

  lemma NothingScanned(q: Query, files: seq<RawFile>)
    ensures Groups(q, [], WithCurrent([], NO_PART)) && Closed(q, files, 0, [])
    ensures Missing(q, []) == q.partitions
  {}

  lemma KindIs(q: Query, f: RawFile)
    ensures KindOf(q, f.name).Metadata? <==> f.name == q.MetadataName()
    ensures KindOf(q, f.name).InPart? ==> Belongs(q, f, KindOf(q, f.name).part)
    ensures forall part :: Belongs(q, f, part) <==> KindOf(q, f.name).InPart? && KindOf(q, f.name).part == part
  {}

  lemma InvalidIsUnreadable(q: Query, files: seq<RawFile>, f: RawFile)
    requires f in files && KindOf(q, f.name).Invalid?
    ensures !Readable(q, files)
  {
    hide KindOf, Bytes, FilesOf, Occurs;
  }

  lemma Flush(q: Query, files: seq<RawFile>, i: nat, parts: seq<RawPart>, current: RawPart)
    requires StrictlySorted(files) && i < |files| && Groups(q, files[..i], WithCurrent(parts, current))
    requires Closed(q, files, i, parts) && !KindOf(q, files[i].name).Invalid? && !Belongs(q, files[i], current.name)
    ensures Closed(q, files, i, WithCurrent(parts, current))
    ensures WithCurrent(WithCurrent(parts, current), NO_PART) == WithCurrent(parts, current)
    ensures !KindOf(q, files[i].name).InPart? ==> Groups(q, files[..i + 1], WithCurrent(parts, current))
  {
    hide KindOf, Belongs, StrictlySorted, Closed, Groups;
    CurrentIsClosed(q, files, i, parts, current);
    if !KindOf(q, files[i].name).InPart? { GroupsSkip(q, files, i, WithCurrent(parts, current)); }
  }

  lemma CurrentIsLast(parts: seq<RawPart>, current: RawPart)
    requires current.name != ""
    ensures WithCurrent(parts, current) == parts + [current]
  {}

  lemma ClosedLater(q: Query, files: seq<RawFile>, i: nat, parts: seq<RawPart>)
    requires Closed(q, files, i, parts)
    ensures Closed(q, files, i + 1, parts)
  {
    hide Belongs;
  }

  lemma ScanEnds(q: Query, files: seq<RawFile>, parts: seq<RawPart>, metadata: Option<RawFile>)
    requires StrictlySorted(files) && Groups(q, files, parts) && NoneInvalid(q, files) && Found(q, files, metadata)
    ensures Readable(q, files) <==>
              metadata.Some? && metadata.value.size > 0 && Missing(q, files) == {} && |parts| > 0
  {
    hide KindOf, FilesOf, Bytes, Occurs, Query.MetadataName, StrictlySorted;
    forall part | part != "" ensures Bytes(FilesOf(q, files, part)) <= UINT64_MAX {
      PartFits(q, files, parts, part);
    }
    if metadata.Some? {
      forall f | f in files && f.name == q.MetadataName() ensures f == metadata.value { OneName(files, f, metadata.value); }
    }
    if |parts| > 0 {
      assert Exact(q, files, parts[0]);
      FilesOfSome(q, files, parts[0].name);
      var k :| 0 <= k < |files| && Belongs(q, files[k], parts[0].name);
      assert files[k] in files && KindOf(q, files[k].name).InPart?;
    }
    assert (forall id | id in q.partitions :: Occurs(q, files, id)) <==> Missing(q, files) == {} by {
      if id :| id in q.partitions && !Occurs(q, files, id) { assert id in Missing(q, files); }
    }
  }

  lemma PartFits(q: Query, files: seq<RawFile>, parts: seq<RawPart>, part: string)
    requires Groups(q, files, parts)
    ensures Bytes(FilesOf(q, files, part)) <= UINT64_MAX
  {
    hide KindOf, FilesOf;
    if k :| 0 <= k < |parts| && parts[k].name == part {
      assert Exact(q, files, parts[k]);
    } else {
      NotEmittedIsEmpty(q, files, parts, part);
    }
  }
}
