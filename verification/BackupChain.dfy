/** Resolving an incremental backup chain: a forward pass collects what each base layer must supply,
    a backward pass turns it into object segments, and a second scan of the head emits the parts.
    The reference is the recursive meaning of an entry: its base content followed by its own object. */
module BackupChain {
  import opened Results
  import opened BackupIndex

  datatype Layer = Layer(bucket: string, prefix: string, index: seq<XmlFile>)

  /** The object `file` under a layer's prefix. */
  datatype Segment = Segment(bucket: string, prefix: string, file: string)

  datatype ContentKey = ContentKey(size: nat, checksum: string)

  datatype File = File(name: string, size: nat, segments: seq<Segment>)

  datatype Part = Part(name: string, files: seq<File>, bytes: nat)

  datatype Plan = Plan(layers: seq<Layer>, query: Query, baseResolved: map<ContentKey, seq<Segment>>, metadata: File, partCount: nat)

  function KeyOf(f: RawFile): ContentKey {
    ContentKey(f.size, f.checksum)
  }

  function BaseKey(f: RawFile): Option<ContentKey> {
    if f.baseSize == 0 then None
    else Some(ContentKey(f.baseSize, if f.baseSize == f.size then f.checksum else f.baseChecksum))
  }

  function Own(layer: Layer, f: RawFile): seq<Segment> {
    if f.size > f.baseSize then [Segment(layer.bucket, layer.prefix, f.dataFile)] else []
  }

  function FirstMatch(files: seq<RawFile>, key: ContentKey): (r: Option<RawFile>)
    ensures r.Some? ==> r.value in files && KeyOf(r.value) == key
    ensures r.None? ==> forall f | f in files :: KeyOf(f) != key
  {
    if files == [] then None
    else
      var front := FirstMatch(files[..|files| - 1], key);
      if front.Some? then front
      else if KeyOf(files[|files| - 1]) == key then Some(files[|files| - 1]) else None
  }

  // ---- the meaning of an entry ----

  /** The segments of an entry at a level: those of its base content at the next level, then its own object. */
  ghost function Meaning(layers: seq<Layer>, level: nat, f: RawFile): Option<seq<Segment>>
    requires level < |layers|
    decreases |layers| - level, 0
  {
    if BaseKey(f).None? then Some(Own(layers[level], f))
    else
      var below := Content(layers, level + 1, BaseKey(f).value);
      if below.None? then None else Some(below.value + Own(layers[level], f))
  }

  /** The segments of some content at a level, taken from the first entry that has it. */
  ghost function Content(layers: seq<Layer>, level: nat, key: ContentKey): Option<seq<Segment>>
    requires level <= |layers|
    decreases |layers| - level, 1
  {
    if level == |layers| || !WellFormed(layers[level].index) then None
    else
      var first := FirstMatch(Entries(layers[level].index), key);
      if first.None? then None else Meaning(layers, level, first.value)
  }

  // ---- soundness of the meaning ----

  function Concat<B>(fetch: Segment -> seq<B>, segments: seq<Segment>): seq<B> {
    if segments == [] then [] else Concat(fetch, segments[..|segments| - 1]) + fetch(segments[|segments| - 1])
  }

  lemma {:induction false} ConcatDistributes<B>(fetch: Segment -> seq<B>, a: seq<Segment>, b: seq<Segment>)
    ensures Concat(fetch, a + b) == Concat(fetch, a) + Concat(fetch, b)
  {
    if b == [] {
      assert a + b == a;
    } else {
      var n := |b| - 1;
      assert (a + b)[..|a + b| - 1] == a + b[..n];
      ConcatDistributes(fetch, a, b[..n]);
    }
  }

  /** What the backup writer guarantees of one entry, whose bytes are `bytes`: its size and checksum are theirs; where a base
      holds their front, the base checksum is the front's; its own object holds what the base does not. */
  ghost predicate EntrySound<B(!new)>(layer: Layer, f: RawFile, bytes: seq<B>, checksum: seq<B> -> string, fetch: Segment -> seq<B>) {
    && |bytes| == f.size && f.baseSize <= f.size
    && (f.size > 0 ==> checksum(bytes) == f.checksum)
    && (0 < f.baseSize < f.size ==> checksum(bytes[..f.baseSize]) == f.baseChecksum)
    && (f.baseSize < f.size ==> fetch(Segment(layer.bucket, layer.prefix, f.dataFile)) == bytes[f.baseSize..])
  }

  /** The file's bytes, or the front of them that a base holds, for some entry of the chain. */
  ghost predicate Piece<B(!new)>(layers: seq<Layer>, data: (nat, RawFile) -> seq<B>, x: seq<B>) {
    exists level: nat, f ::
      Listed(layers, level, f) && (x == data(level, f) || (f.baseSize <= |data(level, f)| && x == data(level, f)[..f.baseSize]))
  }

  ghost predicate Listed(layers: seq<Layer>, level: nat, f: RawFile) {
    level < |layers| && WellFormed(layers[level].index) && f in Entries(layers[level].index)
  }

  /** Content is addressed by size and checksum: no two contents in the chain share both. */
  ghost predicate Addressed<B(!new)>(layers: seq<Layer>, data: (nat, RawFile) -> seq<B>, checksum: seq<B> -> string) {
    forall x, y | Piece(layers, data, x) && Piece(layers, data, y) && |x| == |y| && checksum(x) == checksum(y) :: x == y
  }

  /** `data` gives every entry of every layer the bytes its layer describes. */
  ghost predicate Sound<B(!new)>(layers: seq<Layer>, data: (nat, RawFile) -> seq<B>, checksum: seq<B> -> string, fetch: Segment -> seq<B>) {
    && (forall level: nat, f | Listed(layers, level, f) :: EntrySound(layers[level], f, data(level, f), checksum, fetch))
    && Addressed(layers, data, checksum)
  }

  predicate Normal(f: RawFile) {
    f.baseSize <= f.size && (f.size > f.baseSize ==> f.dataFile != "")
  }

  lemma EntriesAreNormal(index: seq<XmlFile>, f: RawFile)
    requires WellFormed(index) && f in Entries(index)
    ensures Normal(f)
  {
    hide Normalize, StrictlySorted;
    var i :| 0 <= i < |index| && Entries(index)[i] == f;
    assert index[i] in index && Normalize(index[i]).Some?;
  }

  lemma OneSegment<B>(fetch: Segment -> seq<B>, segment: Segment)
    ensures Concat(fetch, [segment]) == fetch(segment) && Concat(fetch, []) == []
  {
    assert [segment][..0] == [];
  }

  /** What the layer itself adds to an entry is what its base does not hold. */
  lemma OwnIsRest<B(!new)>(layer: Layer, f: RawFile, bytes: seq<B>, checksum: seq<B> -> string, fetch: Segment -> seq<B>)
    requires EntrySound(layer, f, bytes, checksum, fetch)
    ensures Concat(fetch, Own(layer, f)) == bytes[f.baseSize..]
  {
    OneSegment(fetch, Segment(layer.bucket, layer.prefix, f.dataFile));
  }

  /** The content an entry asks of the next layer is the front of its bytes that the base holds. */
  lemma BaseIsFront<B(!new)>(layers: seq<Layer>, level: nat, f: RawFile, g: RawFile, data: (nat, RawFile) -> seq<B>,
                             checksum: seq<B> -> string, fetch: Segment -> seq<B>)
    requires Sound(layers, data, checksum, fetch) && Listed(layers, level, f) && Listed(layers, level + 1, g)
    requires BaseKey(f) == Some(KeyOf(g))
    ensures f.baseSize > 0 && data(level + 1, g) == data(level, f)[..f.baseSize]
  {
    hide Normalize, StrictlySorted, Entries, WellFormed, Listed;
    var x, y := data(level + 1, g), data(level, f)[..f.baseSize];
    assert EntrySound(layers[level], f, data(level, f), checksum, fetch) && EntrySound(layers[level + 1], g, x, checksum, fetch) by {
      assert level < |layers| && level + 1 < |layers| by { ListedLevel(layers, level, f); ListedLevel(layers, level + 1, g); }
    }
    assert Piece(layers, data, x) && Piece(layers, data, y);
    if f.baseSize == f.size { assert y == data(level, f); }
  }

  lemma ListedLevel(layers: seq<Layer>, level: nat, f: RawFile)
    requires Listed(layers, level, f)
    ensures level < |layers|
  {}

  /** At any depth, the resolved segments concatenate to exactly the file's bytes. */
  lemma {:induction false} MeaningIsContent<B(!new)>(layers: seq<Layer>, level: nat, f: RawFile, data: (nat, RawFile) -> seq<B>,
                                                     checksum: seq<B> -> string, fetch: Segment -> seq<B>)
    requires Sound(layers, data, checksum, fetch) && Listed(layers, level, f)
    requires Meaning(layers, level, f).Some?
    ensures Concat(fetch, Meaning(layers, level, f).value) == data(level, f) && |data(level, f)| == f.size
    decreases |layers| - level
  {
    hide Normalize, StrictlySorted, Entries, EntrySound, Addressed, Concat, Own;
    assert EntrySound(layers[level], f, data(level, f), checksum, fetch);
    OwnIsRest(layers[level], f, data(level, f), checksum, fetch);
    SoundSize(layers[level], f, data(level, f), checksum, fetch);
    if BaseKey(f).Some? {
      var g := FirstMatch(Entries(layers[level + 1].index), BaseKey(f).value).value;
      assert Listed(layers, level + 1, g);
      BaseIsFront(layers, level, f, g, data, checksum, fetch);
      MeaningIsContent(layers, level + 1, g, data, checksum, fetch);
      ConcatDistributes(fetch, Meaning(layers, level + 1, g).value, Own(layers[level], f));
    }
  }

  lemma SoundSize<B(!new)>(layer: Layer, f: RawFile, bytes: seq<B>, checksum: seq<B> -> string, fetch: Segment -> seq<B>)
    requires EntrySound(layer, f, bytes, checksum, fetch)
    ensures |bytes| == f.size && f.baseSize <= f.size
  {}

  /** The first entry with the size and checksum has a meaning. */
  ghost predicate FirstHasMeaning(layers: seq<Layer>, level: nat, size: nat, checksum: string) {
    level < |layers| && WellFormed(layers[level].index) &&
    var files := Entries(layers[level].index);
    exists i | 0 <= i < |files| ::
      && files[i].size == size && files[i].checksum == checksum
      && (forall j | 0 <= j < i :: files[j].size != size || files[j].checksum != checksum)
      && Meaning(layers, level, files[i]).Some?
  }

  lemma {:induction false} FirstMatchIsFirst(files: seq<RawFile>, key: ContentKey)
    ensures FirstMatch(files, key).Some? ==>
              exists i | 0 <= i < |files| ::
                files[i] == FirstMatch(files, key).value && KeyOf(files[i]) == key && forall j | 0 <= j < i :: KeyOf(files[j]) != key
  {
    if files != [] {
      var front := files[..|files| - 1];
      FirstMatchIsFirst(front, key);
      if FirstMatch(front, key).Some? {
        var i :| 0 <= i < |front| && front[i] == FirstMatch(front, key).value && KeyOf(front[i]) == key &&
                 forall j | 0 <= j < i :: KeyOf(front[j]) != key;
        assert files[i] == front[i] && forall j | 0 <= j < i :: files[j] == front[j];
      } else if FirstMatch(files, key).Some? {
        assert forall j | 0 <= j < |front| :: files[j] in front;
      }
    }
  }

  lemma FirstIsUnique(files: seq<RawFile>, key: ContentKey, i: nat, j: nat)
    requires i < |files| && j < |files| && KeyOf(files[i]) == key && KeyOf(files[j]) == key
    requires (forall l | 0 <= l < i :: KeyOf(files[l]) != key) && forall l | 0 <= l < j :: KeyOf(files[l]) != key
    ensures i == j
  {}

  lemma ContentIsFirst(layers: seq<Layer>, level: nat, key: ContentKey)
    requires level <= |layers|
    ensures Content(layers, level, key).Some? <==> FirstHasMeaning(layers, level, key.size, key.checksum)
  {
    hide Normalize, StrictlySorted, Entries, Meaning;
    if level < |layers| && WellFormed(layers[level].index) {
      var files := Entries(layers[level].index);
      FirstMatchIsFirst(files, key);
      hide FirstMatch;
      forall i | 0 <= i < |files| ensures KeyOf(files[i]) == key <==> files[i].size == key.size && files[i].checksum == key.checksum {}
      if FirstMatch(files, key).Some? {
        var i :| 0 <= i < |files| && files[i] == FirstMatch(files, key).value && KeyOf(files[i]) == key &&
                 forall j | 0 <= j < i :: KeyOf(files[j]) != key;
        forall j | 0 <= j < |files| && KeyOf(files[j]) == key && forall l | 0 <= l < j :: KeyOf(files[l]) != key ensures j == i {
          FirstIsUnique(files, key, i, j);
        }
      } else {
        assert forall i | 0 <= i < |files| :: files[i] in files;
      }
    }
  }

  /** Which content of the next layer an entry needs: none without a base; its own content where the base is the whole file;
      the content its base size and base checksum name where the base is a part. It has a meaning exactly if that has. */
  lemma MeaningNeedsBase(layers: seq<Layer>, level: nat, f: RawFile)
    requires level < |layers|
    ensures Meaning(layers, level, f).Some? <==>
              if f.baseSize == 0 then true
              else if f.baseSize == f.size then FirstHasMeaning(layers, level + 1, f.size, f.checksum)
              else FirstHasMeaning(layers, level + 1, f.baseSize, f.baseChecksum)
  {
    if f.baseSize > 0 { ContentIsFirst(layers, level + 1, BaseKey(f).value); }
    hide Content, FirstHasMeaning;
  }

  /** A non-empty entry never resolves to nothing. */
  lemma {:induction false} MeaningIsNonEmpty(layers: seq<Layer>, level: nat, f: RawFile)
    requires level < |layers| && Normal(f) && f.size > 0 && Meaning(layers, level, f).Some?
    ensures Meaning(layers, level, f).value != []
    decreases |layers| - level
  {
    hide Normalize, StrictlySorted, Entries;
    if BaseKey(f).Some? {
      var g := FirstMatch(Entries(layers[level + 1].index), BaseKey(f).value).value;
      EntriesAreNormal(layers[level + 1].index, g);
      MeaningIsNonEmpty(layers, level + 1, g);
    }
  }

  // ---- the passes ----

  method FindContent(files: seq<RawFile>, wanted: set<ContentKey>) returns (found: map<ContentKey, RawFile>)
    ensures forall key :: key in found <==> key in wanted && FirstMatch(files, key).Some?
    ensures forall key | key in found :: FirstMatch(files, key) == Some(found[key])
  {
    found := map[];
    var i := 0;
    while i < |files|
      invariant 0 <= i <= |files|
      invariant forall key :: key in found <==> key in wanted && FirstMatch(files[..i], key).Some?
      invariant forall key | key in found :: FirstMatch(files[..i], key) == Some(found[key])
    {
      var key := KeyOf(files[i]);
      assert files[..i + 1][..i] == files[..i];
      if key in wanted && key !in found { found := found[key := files[i]]; }
      i := i + 1;
    }
    assert files[..i] == files;
  }

  /** resolveRawFile, where `below` holds the next level's resolved content, or None at the last level. */
  function ResolveRawFile(f: RawFile, layer: Layer, below: Option<map<ContentKey, seq<Segment>>>): Option<seq<Segment>> {
    var key := BaseKey(f);
    if key.Some? && (below.None? || key.value !in below.value) then None
    else
      var base := if key.Some? then below.value[key.value] else [];
      if f.size > f.baseSize && f.dataFile == "" then None
      else
        var segments := base + Own(layer, f);
        if f.size > 0 && segments == [] then None else Some(segments)
  }

  /** With the right content below, resolving yields the entry's meaning. */
  lemma ResolvesToMeaning(layers: seq<Layer>, level: nat, f: RawFile, below: Option<map<ContentKey, seq<Segment>>>)
    requires level < |layers| && Normal(f)
    requires BaseKey(f).Some? ==>
               level + 1 < |layers| && below.Some? && BaseKey(f).value in below.value &&
               Content(layers, level + 1, BaseKey(f).value) == Some(below.value[BaseKey(f).value])
    ensures ResolveRawFile(f, layers[level], below) == Meaning(layers, level, f)
    ensures Meaning(layers, level, f).Some?
  {
    hide Content;
    assert [] + Own(layers[level], f) == Own(layers[level], f);
    if f.size > 0 { MeaningIsNonEmpty(layers, level, f); }
  }

  function BaseKeys(files: set<RawFile>): set<ContentKey> {
    set f | f in files && BaseKey(f).Some? :: BaseKey(f).value
  }

  /** What the forward pass found at one level: for each required key, its first entry. */
  ghost predicate Matched(layers: seq<Layer>, level: nat, required: set<ContentKey>, found: map<ContentKey, RawFile>)
    requires level < |layers|
  {
    && found.Keys == required
    && (required != {} ==> WellFormed(layers[level].index))
    && forall key | key in found && WellFormed(layers[level].index) :: FirstMatch(Entries(layers[level].index), key) == Some(found[key])
  }

  /** What the forward pass holds once it has scanned the levels below `level`. */
  ghost predicate Collected(layers: seq<Layer>, matches: seq<map<ContentKey, RawFile>>, required: set<ContentKey>) {
    && 1 <= |matches| <= |layers|
    && matches[0] == map[]
    && (forall l | 1 <= l < |matches| :: Matched(layers, l, matches[l].Keys, matches[l]))
    && (forall l | 1 <= l < |matches| :: SuppliedBelow(matches, l, required))
  }

  /** What the entries of a level require is what the next level was searched for. */
  ghost predicate SuppliedBelow(matches: seq<map<ContentKey, RawFile>>, l: nat, required: set<ContentKey>)
    requires l < |matches|
  {
    BaseKeys(matches[l].Values) <= if l + 1 < |matches| then matches[l + 1].Keys else required
  }

  ghost predicate AllFound(layers: seq<Layer>, level: nat, required: set<ContentKey>)
    requires level <= |layers|
  {
    forall key | key in required :: Content(layers, level, key).Some?
  }

  /** The forward pass, down to the level where nothing more is required. */
  method CollectRequirements(layers: seq<Layer>, needed: set<ContentKey>) returns (matches: Option<seq<map<ContentKey, RawFile>>>)
    requires layers != []
    ensures matches.Some? <==> AllFound(layers, 1, needed)
    ensures matches.Some? ==>
              && Collected(layers, matches.value, {})
              && needed == if |matches.value| > 1 then matches.value[1].Keys else {}
  {
    hide WellFormed, Entries, Matched, AllFound, BaseKeys, Collected;
    NothingCollected(layers, needed);
    var required, found := needed, [map[]];
    var level := 1;
    while level < |layers| && required != {}
      invariant 1 <= level == |found| <= |layers|
      invariant Collected(layers, found, required) && |found| == level
      invariant needed == if level > 1 then found[1].Keys else required
      invariant AllFound(layers, level, required) <==> AllFound(layers, 1, needed)
      decreases |layers| - level
    {
      var files := ScanIndex(layers[level].index);
      if files.None? {
        NothingFound(layers, level, required);
        return None;
      }
      var matched := FindContent(files.value, required);
      MatchIsFound(layers, level, required, matched);
      if matched.Keys != required { return None; }
      CollectMore(layers, found, required, matched);
      found := found + [matched];
      required := BaseKeys(matched.Values);
      level := level + 1;
    }
    if required != {} {
      NothingFound(layers, level, required);
      return None;
    }
    NothingRequired(layers, level);
    return Some(found);
  }

  lemma NothingCollected(layers: seq<Layer>, needed: set<ContentKey>)
    requires layers != []
    ensures Collected(layers, [map[]], needed)
  {}

  lemma CollectMore(layers: seq<Layer>, found: seq<map<ContentKey, RawFile>>, required: set<ContentKey>,
                    matched: map<ContentKey, RawFile>)
    requires Collected(layers, found, required) && |found| < |layers|
    requires Matched(layers, |found|, required, matched)
    ensures Collected(layers, found + [matched], BaseKeys(matched.Values))
  {
    hide BaseKeys, WellFormed, Entries;
    assert matched.Keys == required;
    hide Matched;
    var all := found + [matched];
    forall l | 1 <= l < |all|
      ensures Matched(layers, l, all[l].Keys, all[l])
      ensures SuppliedBelow(all, l, BaseKeys(matched.Values))
    {
      if l < |found| { assert all[l] == found[l] && SuppliedBelow(found, l, required); }
    }
  }

  lemma NothingRequired(layers: seq<Layer>, level: nat)
    requires level <= |layers|
    ensures AllFound(layers, level, {})
  {}

  lemma NothingFound(layers: seq<Layer>, level: nat, required: set<ContentKey>)
    requires level <= |layers| && required != {} && (level == |layers| || !WellFormed(layers[level].index))
    ensures !AllFound(layers, level, required)
  {
    hide WellFormed, Entries;
    var key :| key in required;
    assert Content(layers, level, key).None?;
  }

  /** A level's requirements are met exactly if every key is found and what the found entries require is met. */
  lemma MatchIsFound(layers: seq<Layer>, level: nat, required: set<ContentKey>, found: map<ContentKey, RawFile>)
    requires level < |layers| && required != {} && WellFormed(layers[level].index)
    requires forall key :: key in found <==> key in required && FirstMatch(Entries(layers[level].index), key).Some?
    requires forall key | key in found :: FirstMatch(Entries(layers[level].index), key) == Some(found[key])
    ensures found.Keys == required ==> Matched(layers, level, required, found)
    ensures AllFound(layers, level, required) <==>
              found.Keys == required && AllFound(layers, level + 1, BaseKeys(found.Values))
  {
    hide Normalize, StrictlySorted, Entries;
    if found.Keys != required {
      var key :| key in required && key !in found;
      assert Content(layers, level, key).None?;
    } else {
      forall key | key in required
        ensures Content(layers, level, key).Some? <==>
                  (BaseKey(found[key]).Some? ==> Content(layers, level + 1, BaseKey(found[key]).value).Some?)
      {}
      hide Content;
      assert AllFound(layers, level, required) <==> AllFound(layers, level + 1, BaseKeys(found.Values)) by {
        forall key | key in required && BaseKey(found[key]).Some? ensures BaseKey(found[key]).value in BaseKeys(found.Values) {
          assert found[key] in found.Values;
        }
      }
    }
  }

  /** The entries of the head that a plan must resolve: the table's metadata and the included parts' files. */
  predicate Needed(q: Query, f: RawFile) {
    f.name == q.MetadataName() || KindOf(q, f.name).InPart?
  }

  ghost predicate Complete(layers: seq<Layer>) {
    forall i | 0 <= i < |layers| :: layers[i].bucket != "" && layers[i].prefix != ""
  }

  /** Exactly when a plan exists: the table can be read from the head, and everything in it has a meaning. */
  ghost predicate Resolvable(layers: seq<Layer>, q: Query) {
    && layers != [] && WellFormed(layers[0].index) && BackupIndex.Readable(q, Entries(layers[0].index))
    && forall f | f in Entries(layers[0].index) && Needed(q, f) :: Meaning(layers, 0, f).Some?
  }

  /** `resolved` maps each of these keys to the meaning of its content. */
  ghost predicate Resolved(layers: seq<Layer>, level: nat, keys: set<ContentKey>, resolved: map<ContentKey, seq<Segment>>)
    requires level <= |layers|
  {
    resolved.Keys == keys && forall key | key in keys :: Content(layers, level, key) == Some(resolved[key])
  }

  /** One level of the backward pass. */
  method ResolveLevel(layers: seq<Layer>, level: nat, matched: map<ContentKey, RawFile>, below: Option<map<ContentKey, seq<Segment>>>,
                      ghost required: set<ContentKey>)
    returns (resolved: Option<map<ContentKey, seq<Segment>>>)
    requires 1 <= level < |layers| && Matched(layers, level, matched.Keys, matched)
    requires BaseKeys(matched.Values) <= required
    requires required != {} ==> level + 1 < |layers| && below.Some? && Resolved(layers, level + 1, required, below.value)
    ensures resolved.Some? && Resolved(layers, level, matched.Keys, resolved.value)
  {
    hide Content, Meaning, Normalize, StrictlySorted, Entries, ResolveRawFile, BaseKey, FirstMatch;
    var left := matched.Keys;
    var out: map<ContentKey, seq<Segment>> := map[];
    while left != {}
      invariant left <= matched.Keys && Resolved(layers, level, matched.Keys - left, out)
      decreases left
    {
      var key :| key in left;
      assert matched[key] in matched.Values;
      assert BaseKey(matched[key]).Some? ==> BaseKey(matched[key]).value in BaseKeys(matched.Values);
      MatchResolves(layers, level, key, matched[key], below);
      var segments := ResolveRawFile(matched[key], layers[level], below);
      if segments.None? { return None; }
      out := out[key := segments.value];
      left := left - {key};
    }
    return Some(out);
  }

  lemma MatchResolves(layers: seq<Layer>, level: nat, key: ContentKey, f: RawFile, below: Option<map<ContentKey, seq<Segment>>>)
    requires level < |layers| && WellFormed(layers[level].index) && FirstMatch(Entries(layers[level].index), key) == Some(f)
    requires BaseKey(f).Some? ==>
               level + 1 < |layers| && below.Some? && BaseKey(f).value in below.value &&
               Content(layers, level + 1, BaseKey(f).value) == Some(below.value[BaseKey(f).value])
    ensures ResolveRawFile(f, layers[level], below).Some?
    ensures Content(layers, level, key) == ResolveRawFile(f, layers[level], below)
  {
    hide ResolveRawFile, Normalize, StrictlySorted, Entries;
    EntriesAreNormal(layers[level].index, f);
    ResolvesToMeaning(layers, level, f, below);
    hide Meaning;
  }

  /** The backward pass: from the deepest level reached up to the first base layer. */
  method ResolveMatches(layers: seq<Layer>, matches: seq<map<ContentKey, RawFile>>)
    returns (resolved: Option<map<ContentKey, seq<Segment>>>)
    requires layers != [] && Collected(layers, matches, {})
    ensures resolved.Some?
    ensures if |matches| == 1 then resolved.value == map[]
            else |layers| > 1 && Resolved(layers, 1, matches[1].Keys, resolved.value)
  {
    hide Content, Resolved, Matched, BaseKeys;
    var level := |matches|;
    var below: Option<map<ContentKey, seq<Segment>>> := None;
    while level > 1
      invariant 1 <= level <= |matches|
      invariant level == |matches| ==> below.None?
      invariant level < |matches| ==> below.Some? && Resolved(layers, level, matches[level].Keys, below.value)
    {
      level := level - 1;
      ghost var required := if level + 1 < |matches| then matches[level + 1].Keys else {};
      assert SuppliedBelow(matches, level, {});
      below := ResolveLevel(layers, level, matches[level], below, required);
    }
    return if |matches| == 1 then Some(map[]) else below;
  }

  /** Every needed entry's base content is at hand. */
  ghost predicate Prepared(layers: seq<Layer>, q: Query, files: seq<RawFile>, baseResolved: map<ContentKey, seq<Segment>>)
    requires layers != []
  {
    forall f | f in files && Needed(q, f) && BaseKey(f).Some? ::
      && |layers| > 1 && BaseKey(f).value in baseResolved
      && Content(layers, 1, BaseKey(f).value) == Some(baseResolved[BaseKey(f).value])
  }

  /** resolveHeadFile. */
  function ResolveHeadFile(layers: seq<Layer>, baseResolved: map<ContentKey, seq<Segment>>, f: RawFile): Option<File>
    requires layers != []
  {
    var segments := ResolveRawFile(f, layers[0], Some(baseResolved));
    if segments.None? then None else Some(File(f.name, f.size, segments.value))
  }

  lemma SameMeaning(layers: seq<Layer>, f: RawFile, name: string)
    requires layers != []
    ensures Meaning(layers, 0, f.(name := name)) == Meaning(layers, 0, f)
  {
    hide Content;
  }

  /** A needed entry of the head, under whatever name its part gives it, resolves to its meaning. */
  lemma HeadFileResolves(layers: seq<Layer>, q: Query, files: seq<RawFile>, baseResolved: map<ContentKey, seq<Segment>>,
                         f: RawFile, name: string)
    requires layers != [] && Prepared(layers, q, files, baseResolved)
    requires f in files && Needed(q, f) && Normal(f)
    ensures Meaning(layers, 0, f.(name := name)).Some?
    ensures ResolveRawFile(f.(name := name), layers[0], Some(baseResolved)) == Meaning(layers, 0, f.(name := name))
  {
    hide Content, Needed, ResolveRawFile, Meaning;
    ResolvesToMeaning(layers, 0, f.(name := name), Some(baseResolved));
  }

  // ---- the entries behind the parts ----

  lemma {:induction false} FilesOfHas(q: Query, files: seq<RawFile>, part: string, f: RawFile)
    requires f in files && Belongs(q, f, part)
    ensures f.(name := KindOf(q, f.name).file) in FilesOf(q, files, part)
  {
    hide KindOf;
    if f != files[|files| - 1] { FilesOfHas(q, files[..|files| - 1], part, f); }
  }

  lemma {:induction false} FilesOfNamed(q: Query, files: seq<RawFile>, part: string, g: RawFile)
    requires g in FilesOf(q, files, part)
    ensures exists f | f in files && Belongs(q, f, part) :: g == f.(name := KindOf(q, f.name).file)
  {
    hide KindOf;
    var n := |files| - 1;
    if g in FilesOf(q, files[..n], part) {
      FilesOfNamed(q, files[..n], part, g);
      var f :| f in files[..n] && Belongs(q, f, part) && g == f.(name := KindOf(q, f.name).file);
      assert f in files;
    } else {
      assert files[n] in files;
    }
  }

  /** Every file of every part stands for a needed entry. */
  lemma PartFileIsNeeded(q: Query, files: seq<RawFile>, parts: seq<RawPart>, p: RawPart, g: RawFile)
    requires Groups(q, files, parts) && p in parts && g in p.files
    ensures exists f | f in files :: Needed(q, f) && g == f.(name := g.name)
  {
    hide KindOf, FilesOf, Query.MetadataName;
    var k :| 0 <= k < |parts| && parts[k] == p;
    assert Exact(q, files, parts[k]);
    FilesOfNamed(q, files, p.name, g);
    var f :| f in files && Belongs(q, f, p.name) && g == f.(name := KindOf(q, f.name).file);
    assert Needed(q, f);
  }

  /** Every needed entry is the metadata or stands behind a file of a part. */
  lemma NeededIsListed(q: Query, files: seq<RawFile>, scan: TableScan, f: RawFile)
    requires StrictlySorted(files) && Groups(q, files, scan.parts) && Found(q, files, Some(scan.metadata))
    requires f in files && Needed(q, f)
    ensures f == scan.metadata || exists p, g | p in scan.parts && g in p.files :: f == g.(name := f.name)
  {
    hide FilesOf, Query.MetadataName, StrictlySorted, KindOf;
    if f.name == q.MetadataName() {
      OneName(files, f, scan.metadata);
    } else {
      var kind := KindOf(q, f.name);
      assert Emitted(scan.parts, kind.part);
      var k :| 0 <= k < |scan.parts| && scan.parts[k].name == kind.part;
      assert Exact(q, files, scan.parts[k]);
      FilesOfHas(q, files, kind.part, f);
      var g := f.(name := kind.file);
      assert g in scan.parts[k].files && f == g.(name := f.name);
    }
  }

  /** The base content the first scan asks for. */
  method RequiredByHead(scan: TableScan) returns (required: set<ContentKey>)
    ensures required == BaseKeys(ScannedFiles(scan))
  {
    required := {};
    var i := 0;
    while i < |scan.parts|
      invariant 0 <= i <= |scan.parts|
      invariant required == BaseKeys(FilesIn(scan.parts[..i]))
    {
      required := required + BaseKeys(set f | f in scan.parts[i].files);
      assert FilesIn(scan.parts[..i + 1]) == FilesIn(scan.parts[..i]) + set f | f in scan.parts[i].files;
      i := i + 1;
    }
    assert scan.parts[..i] == scan.parts;
    required := required + BaseKeys({scan.metadata});
  }

  function FilesIn(parts: seq<RawPart>): set<RawFile> {
    set p, f | p in parts && f in p.files :: f
  }

  function ScannedFiles(scan: TableScan): set<RawFile> {
    FilesIn(scan.parts) + {scan.metadata}
  }

  /** The scan asks for exactly the base content of the needed entries. */
  lemma RequiredIsNeeded(q: Query, files: seq<RawFile>, scan: TableScan)
    requires StrictlySorted(files) && Groups(q, files, scan.parts) && Found(q, files, Some(scan.metadata))
    ensures BaseKeys(ScannedFiles(scan)) == BaseKeys(set f | f in files && Needed(q, f))
  {
    hide Groups, Needed, StrictlySorted, Query.MetadataName;
    var needed := set f | f in files && Needed(q, f);
    assert Needed(q, scan.metadata) by { MetadataIsNeeded(q, files, scan.metadata); }
    forall g | g in ScannedFiles(scan) && BaseKey(g).Some? ensures BaseKey(g).value in BaseKeys(needed) {
      if g in FilesIn(scan.parts) {
        var p :| p in scan.parts && g in p.files;
        PartFileIsNeeded(q, files, scan.parts, p, g);
        var f :| f in files && Needed(q, f) && g == f.(name := g.name);
        assert f in needed && BaseKey(f) == BaseKey(g);
      } else {
        assert g in needed;
      }
    }
    forall f | f in needed && BaseKey(f).Some? ensures BaseKey(f).value in BaseKeys(ScannedFiles(scan)) {
      NeededIsListed(q, files, scan, f);
      if f == scan.metadata {
        assert f in ScannedFiles(scan);
      } else {
        var p, g :| p in scan.parts && g in p.files && f == g.(name := f.name);
        assert g in ScannedFiles(scan) && BaseKey(f) == BaseKey(g);
      }
    }
  }

  lemma MetadataIsNeeded(q: Query, files: seq<RawFile>, metadata: RawFile)
    requires Found(q, files, Some(metadata))
    ensures metadata in files && Needed(q, metadata)
  {
    hide Query.MetadataName;
  }

  lemma NeededHasMeaning(layers: seq<Layer>, q: Query, files: seq<RawFile>)
    requires layers != []
    ensures AllFound(layers, 1, BaseKeys(set f | f in files && Needed(q, f))) <==>
            forall f | f in files && Needed(q, f) :: Meaning(layers, 0, f).Some?
  {
    hide Content, Needed;
    var needed := set f | f in files && Needed(q, f);
    forall f | f in needed && BaseKey(f).Some? ensures BaseKey(f).value in BaseKeys(needed) {}
    if !AllFound(layers, 1, BaseKeys(needed)) {
      var key :| key in BaseKeys(needed) && Content(layers, 1, key).None?;
      var f :| f in needed && BaseKey(f) == Some(key);
      assert Meaning(layers, 0, f).None?;
    } else {
      forall f | f in files && Needed(q, f) ensures Meaning(layers, 0, f).Some? {
        assert f in needed;
      }
    }
  }

  lemma SortedEntries(index: seq<XmlFile>)
    requires WellFormed(index)
    ensures StrictlySorted(Entries(index))
  {}

  lemma PreparedByResolving(layers: seq<Layer>, q: Query, files: seq<RawFile>, required: set<ContentKey>,
                            resolved: map<ContentKey, seq<Segment>>)
    requires layers != [] && required == BaseKeys(set f | f in files && Needed(q, f))
    requires required == {} || (|layers| > 1 && Resolved(layers, 1, required, resolved))
    ensures Prepared(layers, q, files, resolved)
  {
    hide Content, Needed, BaseKey;
    var needed := set f | f in files && Needed(q, f);
    forall f | f in files && Needed(q, f) && BaseKey(f).Some? ensures BaseKey(f).value in required {
      assert f in needed;
    }
  }

  lemma IsMetadataFile(layers: seq<Layer>, q: Query, files: seq<RawFile>, f: RawFile, metadata: File)
    requires layers != [] && Found(q, files, Some(f))
    requires Meaning(layers, 0, f) == Some(metadata.segments) && f.size == metadata.size
    ensures MetadataFile(layers, q, files, metadata)
  {
    hide Meaning, Query.MetadataName;
  }

  // ---- the plan ----

  method Prepare(layers: seq<Layer>, q: Query) returns (plan: Option<Plan>)
    ensures plan.Some? <==> q.database != "" && q.table != "" && Complete(layers) && Resolvable(layers, q)
    ensures plan.Some? ==>
              && plan.value.layers == layers && plan.value.query == q
              && Prepared(layers, q, Entries(layers[0].index), plan.value.baseResolved)
              && CountsParts(q, Entries(layers[0].index), plan.value.partCount)
              && MetadataFile(layers, q, Entries(layers[0].index), plan.value.metadata)
  {
    hide WellFormed, Entries, Needed, BackupIndex.Readable, Groups, StrictlySorted, Found, Meaning, Content, AllFound, Collected,
      ResolveRawFile, BaseKeys, ScannedFiles, Resolved;
    if layers == [] || q.database == "" || q.table == "" { return None; }
    var i := 0;
    while i < |layers|
      invariant 0 <= i <= |layers|
      invariant forall j | 0 <= j < i :: layers[j].bucket != "" && layers[j].prefix != ""
    {
      if layers[i].bucket == "" || layers[i].prefix == "" { return None; }
      i := i + 1;
    }
    var files := ScanIndex(layers[0].index);
    if files.None? { return None; }
    SortedEntries(layers[0].index);
    var scan := ScanTable(q, files.value);
    if scan.None? { return None; }
    var required := RequiredByHead(scan.value);
    RequiredIsNeeded(q, files.value, scan.value);
    NeededHasMeaning(layers, q, files.value);
    var matches := CollectRequirements(layers, required);
    if matches.None? { return None; }
    var resolved := ResolveMatches(layers, matches.value);
    PreparedByResolving(layers, q, files.value, required, resolved.value);
    MetadataIsNeeded(q, files.value, scan.value.metadata);
    EntriesAreNormal(layers[0].index, scan.value.metadata);
    HeadFileResolves(layers, q, files.value, resolved.value, scan.value.metadata, scan.value.metadata.name);
    var metadata := ResolveHeadFile(layers, resolved.value, scan.value.metadata);
    IsMetadataFile(layers, q, files.value, scan.value.metadata, metadata.value);
    return Some(Plan(layers, q, resolved.value, metadata.value, |scan.value.parts|));
  }

  ghost predicate CountsParts(q: Query, files: seq<RawFile>, n: nat) {
    exists parts :: Groups(q, files, parts) && |parts| == n
  }

  ghost predicate MetadataFile(layers: seq<Layer>, q: Query, files: seq<RawFile>, metadata: File)
    requires layers != []
  {
    exists f | f in files && f.name == q.MetadataName() :: Meaning(layers, 0, f) == Some(metadata.segments) && f.size == metadata.size
  }

  /** `part` is `raw` with every file resolved to its meaning. */
  ghost predicate Renders(layers: seq<Layer>, raw: RawPart, part: Part)
    requires layers != []
  {
    && part.name == raw.name && part.bytes == raw.bytes && |part.files| == |raw.files|
    && forall j | 0 <= j < |raw.files| ::
         && part.files[j].name == raw.files[j].name && part.files[j].size == raw.files[j].size
         && Meaning(layers, 0, raw.files[j]) == Some(part.files[j].segments)
  }

  /** Every included part once, with all of its files, each resolved to its meaning. */
  ghost predicate Emits(layers: seq<Layer>, q: Query, files: seq<RawFile>, parts: seq<Part>)
    requires layers != []
  {
    exists raw: seq<RawPart> ::
      Groups(q, files, raw) && |raw| == |parts| && forall i | 0 <= i < |raw| :: Renders(layers, raw[i], parts[i])
  }

  method ResolvePart(layers: seq<Layer>, baseResolved: map<ContentKey, seq<Segment>>, raw: RawPart,
                     ghost q: Query, ghost files: seq<RawFile>)
    returns (part: Option<Part>)
    requires layers != [] && Prepared(layers, q, files, baseResolved)
    requires forall f | f in files :: Normal(f)
    requires forall g | g in raw.files :: exists f | f in files :: Needed(q, f) && g == f.(name := g.name)
    ensures part.Some? && Renders(layers, raw, part.value)
  {
    hide Meaning, Content, Needed, ResolveRawFile, Prepared, Normal;
    var resolved: seq<File> := [];
    var i := 0;
    while i < |raw.files|
      invariant 0 <= i == |resolved| <= |raw.files|
      invariant Renders(layers, raw.(files := raw.files[..i]), Part(raw.name, resolved, raw.bytes))
    {
      ghost var g := raw.files[i];
      assert g in raw.files;
      ghost var f :| f in files && Needed(q, f) && g == f.(name := g.name);
      HeadFileResolves(layers, q, files, baseResolved, f, g.name);
      var file := ResolveHeadFile(layers, baseResolved, raw.files[i]);
      if file.None? { return None; }
      resolved := resolved + [file.value];
      i := i + 1;
    }
    assert raw.files[..i] == raw.files;
    return Some(Part(raw.name, resolved, raw.bytes));
  }

  /** Once a plan is prepared, scanning the unchanged head cannot fail to resolve any file. */
  method ScanParts(plan: Plan) returns (parts: Option<seq<Part>>)
    requires plan.layers != [] && Resolvable(plan.layers, plan.query)
    requires Prepared(plan.layers, plan.query, Entries(plan.layers[0].index), plan.baseResolved)
    ensures parts.Some? && Emits(plan.layers, plan.query, Entries(plan.layers[0].index), parts.value)
  {
    hide WellFormed, Entries, Needed, BackupIndex.Readable, Groups, StrictlySorted, Found, Meaning, Prepared, Normal, Renders;
    var layers, q := plan.layers, plan.query;
    var files := ScanIndex(layers[0].index);
    SortedEntries(layers[0].index);
    forall f | f in files.value ensures Normal(f) { EntriesAreNormal(layers[0].index, f); }
    var scan := ScanTable(q, files.value);
    var raw := scan.value.parts;
    var out: seq<Part> := [];
    var i := 0;
    while i < |raw|
      invariant 0 <= i == |out| <= |raw|
      invariant forall j | 0 <= j < i :: Renders(layers, raw[j], out[j])
    {
      forall g | g in raw[i].files ensures exists f | f in files.value :: Needed(q, f) && g == f.(name := g.name) {
        assert raw[i] in raw;
        PartFileIsNeeded(q, files.value, raw, raw[i], g);
      }
      var part := ResolvePart(layers, plan.baseResolved, raw[i], q, files.value);
      if part.None? { return None; }
      out := out + [part.value];
      i := i + 1;
    }
    return Some(out);
  }

  lemma OccursAmongParts(q: Query, files: seq<RawFile>, raw: seq<RawPart>, partition: string)
    requires Groups(q, files, raw) && Occurs(q, files, partition)
    ensures exists k | 0 <= k < |raw| :: PartitionOf(raw[k].name) == partition
  {
    hide KindOf, PartitionOf, Exact;
    var f :| f in files && KindOf(q, f.name).InPart? && PartitionOf(KindOf(q, f.name).part) == partition;
    assert Emitted(raw, KindOf(q, f.name).part);
    var k :| 0 <= k < |raw| && raw[k].name == KindOf(q, f.name).part;
  }

  /** Every partition asked for occurs among the emitted parts. */
  lemma RequestedPartitionsOccur(layers: seq<Layer>, q: Query, parts: seq<Part>, partition: string)
    requires Resolvable(layers, q) && Emits(layers, q, Entries(layers[0].index), parts) && partition in q.partitions
    ensures exists i | 0 <= i < |parts| :: PartitionOf(parts[i].name) == partition
  {
    hide Normalize, StrictlySorted, Entries, Meaning, PartitionOf, Groups, Occurs, FilesOf, KindOf, Bytes, Query.MetadataName;
    var files := Entries(layers[0].index);
    assert Occurs(q, files, partition);
    hide BackupIndex.Readable;
    var raw: seq<RawPart> :| Groups(q, files, raw) && |raw| == |parts| && forall i | 0 <= i < |raw| :: Renders(layers, raw[i], parts[i]);
    OccursAmongParts(q, files, raw, partition);
    var k :| 0 <= k < |raw| && PartitionOf(raw[k].name) == partition;
    assert Renders(layers, raw[k], parts[k]);
  }

  /** With sound indexes, every file of every emitted part concatenates to exactly its bytes. */
  lemma EmittedFilesAreWhole<B(!new)>(layers: seq<Layer>, q: Query, parts: seq<Part>, i: nat, j: nat,
                                      data: (nat, RawFile) -> seq<B>, checksum: seq<B> -> string, fetch: Segment -> seq<B>)
    requires Resolvable(layers, q) && Emits(layers, q, Entries(layers[0].index), parts) && Sound(layers, data, checksum, fetch)
    requires i < |parts| && j < |parts[i].files|
    ensures exists f | f in Entries(layers[0].index) && Belongs(q, f, parts[i].name) ::
              && parts[i].files[j].name == KindOf(q, f.name).file && parts[i].files[j].size == f.size
              && Concat(fetch, parts[i].files[j].segments) == data(0, f)
  {
    hide Normalize, StrictlySorted, Entries, KindOf, Bytes, FilesOf, Meaning, Sound, BackupIndex.Readable, Concat;
    var files := Entries(layers[0].index);
    var raw: seq<RawPart> :| Groups(q, files, raw) && |raw| == |parts| && forall i | 0 <= i < |raw| :: Renders(layers, raw[i], parts[i]);
    assert Exact(q, files, raw[i]) && Renders(layers, raw[i], parts[i]);
    var g := raw[i].files[j];
    FilesOfNamed(q, files, raw[i].name, g);
    var f :| f in files && Belongs(q, f, raw[i].name) && g == f.(name := KindOf(q, f.name).file);
    SameMeaning(layers, f, g.name);
    assert Listed(layers, 0, f);
    MeaningIsContent(layers, 0, f, data, checksum, fetch);
  }
}
