/** Renaming the table of a CREATE TABLE statement: a cursor parser and an identifier printer that undo each other.
    A string stands for its bytes. The parser is specified on the text that remains after the cursor. */
module Ddl {
  import opened Results
  import opened Text

  const BACKTICK: char := '`'

  // ---- printing ----

  function Doubled(name: string): string {
    if name == "" then "" else (if name[0] == BACKTICK then [BACKTICK, BACKTICK] else [name[0]]) + Doubled(name[1..])
  }

  function Ident(name: string): string {
    [BACKTICK] + Doubled(name) + [BACKTICK]
  }

  function TableSQL(database: string, table: string): string {
    Ident(database) + "." + Ident(table)
  }

  // ---- what remains after each step ----

  predicate IsIdent(c: char) {
    || c == '_' || 'a' <= c <= 'z' || 'A' <= c <= 'Z' || '0' <= c <= '9'
    || c in {0xAA as char, 0xB5 as char, 0xBA as char}
    || (0xC0 as char <= c <= 0xFF as char && c != 0xD7 as char && c != 0xF7 as char)
  }

  function WordLength(s: string): (n: nat)
    ensures n <= |s| && (n < |s| ==> !IsIdent(s[n])) && forall i | 0 <= i < n :: IsIdent(s[i])
  {
    if s == "" || !IsIdent(s[0]) then 0 else 1 + WordLength(s[1..])
  }

  function NextWord(s: string): string {
    var u := TrimLeft(s);
    u[..WordLength(u)]
  }

  const CREATE := "CREATE"
  const TABLE := "TABLE"
  const IF := "IF"
  const NOT := "NOT"
  const EXISTS := "EXISTS"

  predicate Is(word: string, keyword: string) {
    Lower(word) == Lower(keyword)
  }

  /** What remains after an expected keyword. */
  function After(s: string, keyword: string): Option<string> {
    var u := TrimLeft(s);
    if Is(u[..WordLength(u)], keyword) then Some(u[WordLength(u)..]) else None
  }

  /** What remains after CREATE TABLE, an optional IF, and an optional NOT EXISTS. */
  function AfterKeywords(s: string): Option<string> {
    var create := After(s, CREATE);
    if create.None? then None
    else
      var table := After(create.value, TABLE);
      if table.None? then None
      else
        var rest := After(table.value, IF).GetOr(table.value);
        if !Is(NextWord(rest), NOT) then Some(rest)
        else
          var u := TrimLeft(rest);
          After(u[WordLength(u)..], EXISTS)
  }

  /** A name and what remains after it. */
  datatype Parsed = Parsed(name: string, rest: string)

  /** The rest of a quoted identifier, a doubled backtick standing for one. */
  function Quoted(s: string): (r: Option<Parsed>)
    ensures r.Some? ==> |r.value.rest| < |s|
    decreases |s|
  {
    if s == "" then None
    else if s[0] != BACKTICK then
      var more := Quoted(s[1..]);
      if more.None? then None else Some(Parsed([s[0]] + more.value.name, more.value.rest))
    else if |s| > 1 && s[1] == BACKTICK then
      var more := Quoted(s[2..]);
      if more.None? then None else Some(Parsed([BACKTICK] + more.value.name, more.value.rest))
    else Some(Parsed("", s[1..]))
  }

  predicate EndsName(c: char) {
    IsSpace(c) || c == '.' || c == '('
  }

  function BareLength(s: string): (n: nat)
    ensures n <= |s| && (n < |s| ==> EndsName(s[n]))
  {
    if s == "" || EndsName(s[0]) then 0 else 1 + BareLength(s[1..])
  }

  function Identifier(s: string): Option<Parsed> {
    var u := TrimLeft(s);
    if u == "" then None
    else if u[0] == BACKTICK then Quoted(u[1..])
    else if BareLength(u) == 0 then None
    else Some(Parsed(u[..BareLength(u)], u[BareLength(u)..]))
  }

  predicate Dot(s: string) {
    s != "" && s[0] == '.'
  }

  datatype Name = Name(database: string, table: string, hasDatabase: bool)

  /** TableName. */
  function TableNameOf(query: string): Option<Name> {
    var keywords := AfterKeywords(Trim(query));
    if keywords.None? then None
    else
      var first := Identifier(keywords.value);
      if first.None? then None
      else if !Dot(TrimLeft(first.value.rest)) then Some(Name("", first.value.name, false))
      else
        var second := Identifier(TrimLeft(first.value.rest)[1..]);
        if second.None? then None else Some(Name(first.value.name, second.value.name, true))
  }

  /** The text from the table name on, and the text after it; spaces after a name without a database are skipped. */
  datatype Span = Span(from: string, after: string)

  function SpanOf(query: string): Option<Span> {
    var keywords := AfterKeywords(query);
    if keywords.None? then None
    else
      var from := TrimLeft(keywords.value);
      var first := Identifier(from);
      if first.None? then None
      else
        var next := TrimLeft(first.value.rest);
        if !Dot(next) then Some(Span(from, next))
        else
          var second := Identifier(next[1..]);
          if second.None? then None else Some(Span(from, second.value.rest))
  }

  /** ForTable on a normalized statement. */
  function Renamed(query: string, database: string, table: string): Option<string> {
    var span := SpanOf(query);
    if span.None? then None
    else if |span.value.from| > |query| then None
    else Some(query[..|query| - |span.value.from|] + TableSQL(database, table) + span.value.after)
  }

  // ---- suffixes ----

  predicate Suffix(u: string, s: string) {
    |u| <= |s| && s[|s| - |u|..] == u
  }

  lemma SuffixTrans(u: string, v: string, s: string)
    requires Suffix(u, v) && Suffix(v, s)
    ensures Suffix(u, s)
  {
    assert s[|s| - |u|..] == s[|s| - |v|..][|v| - |u|..];
  }

  lemma {:induction false} TrimLeftSuffix(s: string)
    ensures Suffix(TrimLeft(s), s)
    ensures TrimLeft(s) != "" ==> !IsSpace(TrimLeft(s)[0])
    ensures TrimLeft(TrimLeft(s)) == TrimLeft(s)
    ensures forall i | 0 <= i < |s| - |TrimLeft(s)| :: IsSpace(s[i])
  {
    if s != "" && IsSpace(s[0]) {
      TrimLeftSuffix(s[1..]);
      SuffixTrans(TrimLeft(s), s[1..], s);
      forall i | 0 <= i < |s| - |TrimLeft(s)| ensures IsSpace(s[i]) {
        if i > 0 { assert s[i] == s[1..][i - 1]; }
      }
    }
  }

  // ---- reading what was printed ----

  /** A printed identifier is read back exactly, unless the text after it starts with a backtick:
      then the closing backtick is taken for a doubled one, and the name read is longer. */
  lemma {:induction false} QuotedReadsDoubled(name: string, rest: string)
    ensures rest == "" || rest[0] != BACKTICK ==> Quoted(Doubled(name) + [BACKTICK] + rest) == Some(Parsed(name, rest))
    ensures rest != "" && rest[0] == BACKTICK && Quoted(Doubled(name) + [BACKTICK] + rest).Some? ==>
              |Quoted(Doubled(name) + [BACKTICK] + rest).value.name| > |name|
  {
    var s := Doubled(name) + [BACKTICK] + rest;
    if name == "" {
      assert s == [BACKTICK] + rest;
      assert s[1..] == rest;
    } else {
      var tail := Doubled(name[1..]) + [BACKTICK] + rest;
      var first := if name[0] == BACKTICK then [BACKTICK, BACKTICK] else [name[0]];
      Associates(first, Doubled(name[1..]), [BACKTICK], rest);
      assert s == first + tail && s[|first|..] == tail;
      QuotedReadsDoubled(name[1..], rest);
      assert name == [name[0]] + name[1..];
      hide Doubled;
    }
  }

  lemma Associates(a: string, b: string, c: string, d: string)
    ensures (a + b) + c + d == a + (b + c + d)
  {}

  lemma IdentifierReadsIdent(name: string, rest: string)
    ensures rest == "" || rest[0] != BACKTICK ==> Identifier(Ident(name) + rest) == Some(Parsed(name, rest))
    ensures rest != "" && rest[0] == BACKTICK && Identifier(Ident(name) + rest).Some? ==>
              |Identifier(Ident(name) + rest).value.name| > |name|
  {
    var s := Ident(name) + rest;
    assert s[0] == BACKTICK && s[1..] == Doubled(name) + [BACKTICK] + rest;
    assert TrimLeft(s) == s;
    QuotedReadsDoubled(name, rest);
  }

  // ---- the keywords before the name do not depend on the name ----

  /** `b` is `a` with its ending `from` replaced by the printed name onwards. */
  predicate Swapped(a: string, b: string, from: string, to: string) {
    |a| >= |from| && a[|a| - |from|..] == from && b == a[..|a| - |from|] + to
  }

  predicate Starts(from: string, to: string) {
    from != "" && !IsSpace(from[0]) && to != "" && to[0] == BACKTICK
  }

  lemma {:induction false} TrimLeftSwapped(a: string, b: string, from: string, to: string)
    requires Swapped(a, b, from, to) && Starts(from, to)
    ensures Swapped(TrimLeft(a), TrimLeft(b), from, to)
  {
    if |a| > |from| {
      assert a[0] == b[0];
      if IsSpace(a[0]) {
        assert a[1..][|a[1..]| - |from|..] == from;
        assert b[1..] == a[1..][..|a[1..]| - |from|] + to;
        TrimLeftSwapped(a[1..], b[1..], from, to);
      }
    } else {
      assert a == from && b == to;
    }
  }

  lemma CutConcat(h: string, x: string, n: nat)
    requires n <= |h|
    ensures (h + x)[..n] == h[..n] && (h + x)[n..] == h[n..] + x
  {}

  lemma SwappedHead(h: string, from: string, to: string)
    ensures Swapped(h + from, h + to, from, to)
  {}

  lemma WordOfHead(h: string, from: string, to: string)
    requires to != "" && to[0] == BACKTICK && WordLength(h + from) <= |h|
    ensures WordLength(h + to) == WordLength(h + from)
  {
    var n := WordLength(h + from);
    WordEnds(h, from, to);
    hide WordLength, IsIdent;
    assert h + to == h[..n] + (h[n..] + to);
    WordIs(h + to, h[..n], h[n..] + to);
  }

  lemma WordEnds(h: string, from: string, to: string)
    requires to != "" && to[0] == BACKTICK && WordLength(h + from) <= |h|
    ensures var n := WordLength(h + from);
      !IsIdent((h[n..] + to)[0]) && forall i | 0 <= i < n :: IsIdent(h[..n][i])
  {
    var n := WordLength(h + from);
    assert !IsIdent(BACKTICK);
    hide IsIdent;
    if n < |h| { assert (h[n..] + to)[0] == h[n] == (h + from)[n]; }
    assert forall i | 0 <= i < n :: h[..n][i] == (h + from)[i];
  }

  lemma WordSwapped(a: string, b: string, from: string, to: string)
    requires Swapped(a, b, from, to) && Starts(from, to) && |a| - WordLength(a) >= |from|
    ensures WordLength(b) == WordLength(a)
    ensures a[..WordLength(a)] == b[..WordLength(a)]
    ensures Swapped(a[WordLength(a)..], b[WordLength(a)..], from, to)
  {
    var n, h := WordLength(a), a[..|a| - |from|];
    assert a == h + from && b == h + to;
    hide WordLength, Swapped;
    WordOfHead(h, from, to);
    CutConcat(h, from, n);
    CutConcat(h, to, n);
    SwappedHead(h[n..], from, to);
  }

  /** A word that ends before the name is read alike. */
  lemma NextWordSwapped(a: string, b: string, from: string, to: string)
    requires Swapped(a, b, from, to) && Starts(from, to)
    requires |TrimLeft(a)| - WordLength(TrimLeft(a)) >= |from|
    ensures WordLength(TrimLeft(b)) == WordLength(TrimLeft(a)) && NextWord(a) == NextWord(b)
    ensures Swapped(TrimLeft(a)[WordLength(TrimLeft(a))..], TrimLeft(b)[WordLength(TrimLeft(a))..], from, to)
  {
    TrimLeftSwapped(a, b, from, to);
    WordSwapped(TrimLeft(a), TrimLeft(b), from, to);
  }

  lemma AfterShortens(s: string, keyword: string)
    requires After(s, keyword).Some?
    ensures var u := TrimLeft(s); After(s, keyword) == Some(u[WordLength(u)..]) && |After(s, keyword).value| <= |u| <= |s|
  {
    TrimLeftSuffix(s);
  }

  lemma AfterSwapped(a: string, b: string, from: string, to: string, keyword: string)
    requires Swapped(a, b, from, to) && Starts(from, to)
    requires After(a, keyword).Some? && |After(a, keyword).value| >= |from|
    ensures After(b, keyword).Some? && Swapped(After(a, keyword).value, After(b, keyword).value, from, to)
  {
    hide Is, WordLength, TrimLeft, Swapped;
    NextWordSwapped(a, b, from, to);
  }

  /** Where the name comes next, no optional keyword is read in its place. */
  lemma NameComesNext(a: string, b: string, from: string, to: string)
    requires Swapped(a, b, from, to) && Starts(from, to) && TrimLeft(a) == from
    ensures TrimLeft(b) == to && NextWord(b) == "" && After(b, IF).None? && !Is("", NOT)
  {
    TrimLeftSwapped(a, b, from, to);
    assert Lower(NOT) != "" && Lower(IF) != "";
  }

  lemma OptionalIfSwapped(a: string, b: string, from: string, to: string, k: string)
    requires Swapped(a, b, from, to) && Starts(from, to) && TrimLeft(k) == from && |k| >= |from|
    requires var rest := After(a, IF).GetOr(a);
      if !Is(NextWord(rest), NOT) then k == rest
      else var u := TrimLeft(rest); After(u[WordLength(u)..], EXISTS) == Some(k)
    ensures var rest := After(b, IF).GetOr(b);
      if !Is(NextWord(rest), NOT) then TrimLeft(rest) == to
      else
        var ending := After(TrimLeft(rest)[WordLength(TrimLeft(rest))..], EXISTS);
        ending.Some? && TrimLeft(ending.value) == to
  {
    var rest := After(a, IF).GetOr(a);
    var u := TrimLeft(rest);
    if Is(NextWord(rest), NOT) { AfterShortens(u[WordLength(u)..], EXISTS); }
    TrimLeftSuffix(rest);
    assert |rest| >= |from|;
    var rest' := After(b, IF).GetOr(b);
    if After(a, IF).Some? {
      AfterSwapped(a, b, from, to, IF);
    } else {
      assert rest == a;
      if Is(NextWord(a), NOT) {
        NextWordSwapped(a, b, from, to);
        assert After(b, IF).None?;
      } else {
        NameComesNext(a, b, from, to);
      }
      assert rest' == b;
    }
    assert Swapped(rest, rest', from, to);
    hide Swapped, Is, WordLength, Starts;
    if Is(NextWord(rest), NOT) {
      NextWordSwapped(rest, rest', from, to);
      var v := TrimLeft(rest');
      AfterSwapped(u[WordLength(u)..], v[WordLength(u)..], from, to, EXISTS);
      TrimLeftSwapped(k, After(v[WordLength(u)..], EXISTS).value, from, to);
      SwappedWhole(from, TrimLeft(After(v[WordLength(u)..], EXISTS).value), from, to);
    } else {
      NameComesNext(rest, rest', from, to);
    }
  }

  lemma SwappedWhole(a: string, b: string, from: string, to: string)
    requires Swapped(a, b, from, to) && |a| == |from|
    ensures b == to
  {}

  /** After the keywords the parser stands at the printed name, whatever name stood there before. */
  lemma KeywordsSwapped(a: string, b: string, from: string, to: string)
    requires Swapped(a, b, from, to) && Starts(from, to)
    requires AfterKeywords(a).Some? && TrimLeft(AfterKeywords(a).value) == from
    ensures AfterKeywords(b).Some? && TrimLeft(AfterKeywords(b).value) == to
  {
    hide Is, WordLength, TrimLeft, Swapped, Starts, After;
    var k := AfterKeywords(a).value;
    TrimLeftSuffix(k);
    var create := After(a, CREATE).value;
    var table := After(create, TABLE).value;
    AfterShortens(a, CREATE);
    AfterShortens(create, TABLE);
    var rest := After(table, IF).GetOr(table);
    if After(table, IF).Some? { AfterShortens(table, IF); }
    TrimLeftSuffix(rest);
    if Is(NextWord(rest), NOT) { AfterShortens(TrimLeft(rest)[WordLength(TrimLeft(rest))..], EXISTS); }
    assert |from| <= |table| <= |create|;
    AfterSwapped(a, b, from, to, CREATE);
    AfterSwapped(create, After(b, CREATE).value, from, to, TABLE);
    OptionalIfSwapped(table, After(After(b, CREATE).value, TABLE).value, from, to, k);
  }

  // ---- the round trip ----

  predicate StartsWithBacktick(s: string) {
    s != "" && s[0] == BACKTICK
  }

  lemma {:induction false} TrimRightKeeps(x: string, y: string)
    requires x != "" && !IsSpace(x[|x| - 1])
    ensures TrimRight(x + y) == x + TrimRight(y)
  {
    if y == "" {
      assert x + y == x;
    } else if IsSpace(y[|y| - 1]) {
      assert (x + y)[..|x + y| - 1] == x + y[..|y| - 1];
      TrimRightKeeps(x, y[..|y| - 1]);
    }
  }

  lemma {:induction false} TrimRightStart(s: string)
    ensures StartsWithBacktick(TrimRight(s)) <==> StartsWithBacktick(s)
  {
    if s != "" && IsSpace(s[|s| - 1]) {
      TrimRightStart(s[..|s| - 1]);
    }
  }

  /** Reading the printed pair of names in front of `rest`. */
  lemma PrintedPairReads(database: string, table: string, rest: string)
    ensures Identifier(TableSQL(database, table) + rest) == Some(Parsed(database, "." + Ident(table) + rest))
    ensures !StartsWithBacktick(rest) ==> Identifier(Ident(table) + rest) == Some(Parsed(table, rest))
    ensures StartsWithBacktick(rest) && Identifier(Ident(table) + rest).Some? ==> Identifier(Ident(table) + rest).value.name != table
  {
    assert TableSQL(database, table) + rest == Ident(database) + ("." + Ident(table) + rest);
    IdentifierReadsIdent(database, "." + Ident(table) + rest);
    IdentifierReadsIdent(table, rest);
  }

  lemma IdentifierTrims(s: string)
    ensures Identifier(s) == Identifier(TrimLeft(s))
  {
    TrimLeftSuffix(s);
    hide Quoted, BareLength;
  }

  /** The statement with the new name in place, trimmed, still has the old keywords and then the new name. */
  lemma TrimmedRename(query: string, database: string, table: string)
    requires Renamed(query, database, table).Some?
    ensures var after := SpanOf(query).value.after;
            var keywords := AfterKeywords(Trim(Renamed(query, database, table).value));
      keywords.Some? && TrimLeft(keywords.value) == TableSQL(database, table) + TrimRight(after)
  {
    hide Identifier, AfterKeywords, TableSQL, TrimLeft, TrimRight, Swapped;
    var span, q := SpanOf(query).value, Renamed(query, database, table).value;
    var printed := TableSQL(database, table);
    PrintedEnds(database, table);
    SpanIsSuffix(query);
    Spliced(query, span.from, printed, span.after);
    TrimLeftSwapped(query, q, span.from, printed + span.after);
    TrimKeepsSwap(TrimLeft(query), TrimLeft(q), span.from, printed, span.after);
    TrimmedKeywords(query);
    KeywordsSwapped(TrimLeft(query), Trim(q), span.from, printed + TrimRight(span.after));
  }

  lemma Spliced(query: string, from: string, printed: string, after: string)
    requires Suffix(from, query)
    ensures Swapped(query, query[..|query| - |from|] + printed + after, from, printed + after)
  {
    var head := query[..|query| - |from|];
    assert head + printed + after == head + (printed + after);
  }

  /** Trimming spaces off the end never reaches into the printed name. */
  lemma TrimKeepsSwap(a: string, b: string, from: string, printed: string, after: string)
    requires Swapped(a, b, from, printed + after) && printed != "" && !IsSpace(printed[|printed| - 1])
    ensures Swapped(a, TrimRight(b), from, printed + TrimRight(after))
  {
    hide TrimRight;
    var head := a[..|a| - |from|];
    assert b == head + printed + after;
    TrimRightKeeps(head + printed, after);
    assert head + printed + TrimRight(after) == head + (printed + TrimRight(after));
  }

  lemma PrintedEnds(database: string, table: string)
    ensures var printed := TableSQL(database, table);
      printed != "" && printed[0] == BACKTICK && printed[|printed| - 1] == BACKTICK && !IsSpace(BACKTICK)
  {}

  lemma TrimmedKeywords(query: string)
    ensures AfterKeywords(TrimLeft(query)) == AfterKeywords(query)
  {
    TrimLeftSuffix(query);
    hide TrimLeft, WordLength, Is;
  }

  lemma AfterKeywordsSuffix(query: string)
    requires AfterKeywords(query).Some?
    ensures Suffix(AfterKeywords(query).value, query)
  {
    hide Is, WordLength, TrimLeft, After, Suffix;
    var create := After(query, CREATE).value;
    var table := After(create, TABLE).value;
    AfterSuffix(query, CREATE);
    AfterSuffix(create, TABLE);
    SuffixTrans(table, create, query);
    var rest := After(table, IF).GetOr(table);
    if After(table, IF).Some? { AfterSuffix(table, IF); } else { TailIsSuffix(table, 0); }
    SuffixTrans(rest, table, query);
    if Is(NextWord(rest), NOT) {
      var u := TrimLeft(rest);
      var v := u[WordLength(u)..];
      TrimLeftSuffix(rest);
      TailIsSuffix(u, WordLength(u));
      SuffixTrans(v, u, rest);
      AfterSuffix(v, EXISTS);
      SuffixTrans(AfterKeywords(query).value, v, rest);
      SuffixTrans(AfterKeywords(query).value, rest, query);
    }
  }

  lemma TailIsSuffix(s: string, n: nat)
    requires n <= |s|
    ensures Suffix(s[n..], s) && s[0..] == s
  {}

  lemma AfterSuffix(s: string, keyword: string)
    requires After(s, keyword).Some?
    ensures Suffix(After(s, keyword).value, s)
  {
    TrimLeftSuffix(s);
    var u := TrimLeft(s);
    SuffixTrans(u[WordLength(u)..], u, s);
  }

  lemma SpanIsSuffix(query: string)
    requires SpanOf(query).Some?
    ensures Suffix(SpanOf(query).value.from, query) && SpanOf(query).value.from != "" && !IsSpace(SpanOf(query).value.from[0])
    ensures AfterKeywords(query).Some? && TrimLeft(AfterKeywords(query).value) == SpanOf(query).value.from
  {
    hide AfterKeywords;
    var k := AfterKeywords(query).value;
    AfterKeywordsSuffix(query);
    TrimLeftSuffix(k);
    SuffixTrans(TrimLeft(k), k, query);
  }

  /** Renaming and reading back undo each other, for every database and table name, backticks included,
      exactly when the text after the replaced name does not start with a backtick. */
  lemma RenameRoundTrips(query: string, database: string, table: string)
    requires Renamed(query, database, table).Some?
    ensures TableNameOf(Renamed(query, database, table).value) == Some(Name(database, table, true)) <==>
            !StartsWithBacktick(SpanOf(query).value.after)
  {
    hide AfterKeywords, TableSQL, Ident, SpanOf, TrimRight, Quoted, BareLength;
    var after := SpanOf(query).value.after;
    hide Renamed;
    var rest := TrimRight(after);
    TrimmedRename(query, database, table);
    TrimRightStart(after);
    PrintedPairReads(database, table, rest);
    var keywords := AfterKeywords(Trim(Renamed(query, database, table).value));
    IdentifierTrims(keywords.value);
    var next := "." + Ident(table) + rest;
    assert TrimLeft(next) == next && Dot(next);
    assert next[1..] == Ident(table) + rest;
    hide Identifier;
  }

  lemma {:induction false} QuotedEnds(s: string)
    requires Quoted(s).Some?
    ensures !StartsWithBacktick(Quoted(s).value.rest)
    decreases |s|
  {
    if s[0] != BACKTICK { QuotedEnds(s[1..]); }
    else if |s| > 1 && s[1] == BACKTICK { QuotedEnds(s[2..]); }
  }

  lemma IdentifierEnds(s: string)
    requires Identifier(s).Some?
    ensures !StartsWithBacktick(Identifier(s).value.rest)
  {
    var u := TrimLeft(s);
    if u[0] == BACKTICK { QuotedEnds(u[1..]); }
  }

  /** Only a name without a database can be followed by a backtick, across the spaces the span swallows. */
  lemma QualifiedNamesRoundTrip(query: string, database: string, table: string)
    requires Renamed(query, database, table).Some?
    requires Dot(TrimLeft(Identifier(SpanOf(query).value.from).value.rest))
    ensures TableNameOf(Renamed(query, database, table).value) == Some(Name(database, table, true))
  {
    hide AfterKeywords, TableSQL, TableNameOf, Identifier;
    var next := TrimLeft(Identifier(SpanOf(query).value.from).value.rest);
    IdentifierEnds(next[1..]);
    RenameRoundTrips(query, database, table);
  }

  predicate IsWord(word: string) {
    word != "" && forall i | 0 <= i < |word| :: IsIdent(word[i]) && !IsSpace(word[i])
  }

  lemma AfterWord(word: string, rest: string)
    requires IsWord(word) && (rest != "" ==> !IsIdent(rest[0]))
    ensures TrimLeft(word + rest) == TrimLeft(" " + (word + rest)) == word + rest
    ensures NextWord(word + rest) == NextWord(" " + (word + rest)) == word
    ensures After(word + rest, word) == After(" " + (word + rest), word) == Some(rest)
  {
    var s := word + rest;
    assert s[0] == word[0] && (" " + s)[1..] == s;
    WordIs(s, word, rest);
  }

  lemma {:induction false} BareIs(word: string, rest: string)
    requires (forall i | 0 <= i < |word| :: IsIdent(word[i]) && !IsSpace(word[i])) && rest != "" && EndsName(rest[0])
    ensures BareLength(word + rest) == |word|
  {
    if word == "" {
      assert word + rest == rest;
    } else {
      assert (word + rest)[1..] == word[1..] + rest;
      BareIs(word[1..], rest);
    }
  }

  lemma KeywordsAreWords()
    ensures IsWord(CREATE) && IsWord(TABLE)
  {}

  /** The statement CREATE TABLE name `tail. */
  function Clashing(name: string, tail: string): string {
    CREATE + (" " + (TABLE + (" " + (name + (" `" + tail)))))
  }

  lemma ClashingKeywords(name: string, tail: string)
    requires IsWord(name) && !Is(name, IF) && !Is(name, NOT)
    ensures AfterKeywords(Clashing(name, tail)) == Some(" " + (name + (" `" + tail)))
    ensures TrimLeft(" " + (name + (" `" + tail))) == name + (" `" + tail)
  {
    var s3 := name + (" `" + tail);
    var s2 := TABLE + (" " + s3);
    KeywordsAreWords();
    assert (" `" + tail)[0] == ' ' && (" " + s3)[0] == ' ' && (" " + s2)[0] == ' ' && !IsIdent(' ');
    AfterWord(name, " `" + tail);
    AfterWord(TABLE, " " + s3);
    AfterWord(CREATE, " " + s2);
    hide IsWord, TrimLeft, WordLength, CREATE, TABLE, IF, NOT, IsIdent;
    assert After(" " + s3, IF).None? by { hide *; NoKeyword(" " + s3, IF); }
  }

  lemma NoKeyword(s: string, keyword: string)
    requires !Is(NextWord(s), keyword)
    ensures After(s, keyword).None?
  {}

  lemma NameBeforeSpace(name: string, rest: string)
    requires IsWord(name) && rest != "" && rest[0] == ' '
    ensures Identifier(name + rest) == Some(Parsed(name, rest))
  {
    AfterWord(name, rest);
    BareIs(name, rest);
    WordStart(name);
    assert (name + rest)[..|name|] == name && (name + rest)[|name|..] == rest && (name + rest)[0] == name[0];
    hide IsWord, TrimLeft, BareLength, Quoted;
  }

  lemma BacktickTrimmed(tail: string)
    ensures TrimLeft(" `" + tail) == "`" + tail
  {
    assert (" `" + tail)[1..] == "`" + tail;
  }

  lemma ClashingSpan(name: string, tail: string)
    requires IsWord(name) && !Is(name, IF) && !Is(name, NOT)
    ensures SpanOf(Clashing(name, tail)) == Some(Span(name + (" `" + tail), "`" + tail))
  {
    hide AfterKeywords, TrimLeft, Clashing, IsWord, Is, Identifier;
    ClashingKeywords(name, tail);
    NameBeforeSpace(name, " `" + tail);
    BacktickTrimmed(tail);
  }

  /** The failing family: any unqualified name with spaces and a backtick after it, whatever the new names are. */
  lemma BacktickAfterName(name: string, tail: string, database: string, table: string)
    requires IsWord(name) && !Is(name, IF) && !Is(name, NOT)
    ensures Renamed(Clashing(name, tail), database, table).Some?
    ensures TableNameOf(Renamed(Clashing(name, tail), database, table).value) != Some(Name(database, table, true))
  {
    var query := Clashing(name, tail);
    ClashingSpan(name, tail);
    SpanIsSuffix(query);
    hide SpanOf, TableNameOf, Clashing, IsWord, Is, TableSQL;
    RenameRoundTrips(query, database, table);
  }

  lemma WordStart(name: string)
    requires IsWord(name)
    ensures name[0] != BACKTICK
  {}

  lemma {:induction false} WordIs(s: string, word: string, rest: string)
    requires s == word + rest && (forall i | 0 <= i < |word| :: IsIdent(word[i])) && (rest != "" ==> !IsIdent(rest[0]))
    ensures WordLength(s) == |word| && s[..WordLength(s)] == word && s[WordLength(s)..] == rest
  {
    if word != "" {
      assert s[1..] == word[1..] + rest;
      WordIs(s[1..], word[1..], rest);
    }
  }

  // ---- plain statements ----

  /** A name written without quotes: no white space, dot, parenthesis or leading backtick in it. */
  predicate BareName(name: string) {
    && name != "" && name[0] != '`'
    && forall i | 0 <= i < |name| ::
         name[i] !in {' ', '\t', '\n', '\r', 11 as char, 12 as char, 0x85 as char, 0xA0 as char, '.', '('}
  }

  lemma {:induction false} BareReads(name: string, rest: string)
    requires (forall i | 0 <= i < |name| :: !EndsName(name[i])) && (rest != "" ==> EndsName(rest[0]))
    ensures BareLength(name + rest) == |name|
  {
    hide EndsName;
    if name == "" {
      assert name + rest == rest;
    } else {
      assert (name + rest)[1..] == name[1..] + rest;
      BareReads(name[1..], rest);
    }
  }

  lemma BareIdentifier(name: string, rest: string)
    requires BareName(name) && (rest == "" || rest[0] in {' ', '.', '('})
    ensures Identifier(name + rest) == Identifier(" " + (name + rest)) == Some(Parsed(name, rest))
  {
    BareReads(name, rest);
    var u := name + rest;
    assert u[0] == name[0] && u[..|name|] == name && u[|name|..] == rest;
    assert TrimLeft(u) == u && (" " + u)[1..] == u;
    hide Quoted, BareLength;
  }

  /** Which characters end an unquoted name: white space, a dot and an opening parenthesis, and no others. */
  lemma NameEndsExactly(name: string, c: char, rest: string)
    requires BareName(name)
    ensures Identifier(name + ([c] + rest)) == Some(Parsed(name, [c] + rest)) <==>
              c in {' ', '\t', '\n', '\r', 11 as char, 12 as char, 0x85 as char, 0xA0 as char, '.', '('}
  {
    var u := name + ([c] + rest);
    assert u[0] == name[0] && TrimLeft(u) == u;
    if EndsName(c) {
      BareReads(name, [c] + rest);
      assert u[..|name|] == name && u[|name|..] == [c] + rest;
    } else {
      assert u == (name + [c]) + rest && u[..|name| + 1] == name + [c];
      LongerName(name + [c], rest);
      assert |u[..BareLength(u)]| > |name|;
    }
    hide BareLength, Quoted;
  }

  lemma {:induction false} LongerName(name: string, rest: string)
    requires forall i | 0 <= i < |name| :: !EndsName(name[i])
    ensures BareLength(name + rest) >= |name|
  {
    hide EndsName;
    if name != "" {
      assert (name + rest)[1..] == name[1..] + rest;
      LongerName(name[1..], rest);
    }
  }

  /** A keyword is read exactly where no letter, digit or underscore follows it. */
  lemma KeywordEndsExactly(keyword: string, rest: string)
    requires IsWord(keyword)
    ensures After(keyword + rest, keyword) == Some(rest) <==>
              rest == "" || !(rest[0] == '_' || '0' <= rest[0] <= '9' || 'A' <= rest[0] <= 'Z' || 'a' <= rest[0] <= 'z' ||
                              (0xC0 as char <= rest[0] <= 0xFF as char && rest[0] !in {0xD7 as char, 0xF7 as char}) ||
                              rest[0] in {0xAA as char, 0xB5 as char, 0xBA as char})
  {
    var u := keyword + rest;
    assert u[0] == keyword[0] && TrimLeft(u) == u;
    assert forall i | 0 <= i < |keyword| :: u[i] == keyword[i];
    if rest == "" || !IsIdent(rest[0]) {
      WordIs(u, keyword, rest);
    } else {
      assert u[|keyword|] == rest[0];
      assert WordLength(u) > |keyword|;
      LowerChars(u[..WordLength(u)]);
      LowerChars(keyword);
    }
    hide WordLength, Lower;
  }

  lemma KeywordReads(word: string, keyword: string, rest: string)
    requires IsWord(word) && Lower(word) == Lower(keyword) && (rest == "" || rest[0] == ' ')
    ensures After(word + rest, keyword) == After(" " + (word + rest), keyword) == Some(rest)
    ensures NextWord(" " + (word + rest)) == word
  {
    var s := word + rest;
    assert s[0] == word[0] && (" " + s)[1..] == s && !IsIdent(' ');
    WordIs(s, word, rest);
  }

  /** The statement `create` `table`, the optional words, the name and the rest, one space between words. */
  function Plain(create: string, table: string, optional: bool, name: string): string {
    create + (" " + (table + (" " + if optional then "IF" + (" " + ("NOT" + (" " + ("EXISTS" + (" " + name))))) else name)))
  }

  lemma OptionalWords()
    ensures IsWord("IF") && IsWord("NOT") && IsWord("EXISTS")
  {}

  /** The two keywords are read in any case, and IF NOT EXISTS is skipped. */
  lemma PlainKeywords(create: string, table: string, optional: bool, name: string)
    requires IsWord(create) && IsWord(table) && Lower(create) == "create" && Lower(table) == "table"
    requires optional || (!Is(NextWord(" " + name), "IF") && !Is(NextWord(" " + name), "NOT"))
    ensures AfterKeywords(Plain(create, table, optional, name)) == Some(" " + name)
  {
    var s5 := " " + name;
    var s4 := " " + ("EXISTS" + s5);
    var s3 := " " + ("NOT" + s4);
    var s2 := if optional then " " + ("IF" + s3) else s5;
    OptionalWords();
    assert Lower("CREATE") == "create" && Lower("TABLE") == "table" by { LoweredKeywords(); }
    hide IsWord, IsIdent, WordLength, TrimLeft, Lower;
    KeywordReads(create, CREATE, " " + (table + s2));
    KeywordReads(table, TABLE, s2);
    if optional {
      KeywordReads("IF", IF, s3);
      KeywordReads("NOT", NOT, s4);
      KeywordReads("EXISTS", EXISTS, s5);
      NotIsRead(s3, s4);
    } else {
      NoKeyword(s5, IF);
    }
  }

  lemma LoweredKeywords()
    ensures Lower("CREATE") == "create" && Lower("TABLE") == "table"
  {
    assert "CREATE"[1..] == "REATE" && "REATE"[1..] == "EATE" && "EATE"[1..] == "ATE" && "ATE"[1..] == "TE" && "TE"[1..] == "E";
    assert "TABLE"[1..] == "ABLE" && "ABLE"[1..] == "BLE" && "BLE"[1..] == "LE" && "LE"[1..] == "E";
    assert Lower("E") == "e" && Lower("TE") == "te" && Lower("ATE") == "ate" && Lower("EATE") == "eate" && Lower("REATE") == "reate";
    assert Lower("LE") == "le" && Lower("BLE") == "ble" && Lower("ABLE") == "able";
  }

  lemma NotIsRead(s: string, rest: string)
    requires After(s, NOT) == Some(rest)
    ensures Is(NextWord(s), NOT) && TrimLeft(s)[WordLength(TrimLeft(s))..] == rest
  {}

  lemma PlainIsTrimmed(create: string, table: string, optional: bool, name: string)
    requires IsWord(create) && name != "" && !IsSpace(name[|name| - 1])
    ensures Trim(Plain(create, table, optional, name)) == Plain(create, table, optional, name)
  {
    var s := Plain(create, table, optional, name);
    assert s[0] == create[0] && s[|s| - 1] == name[|name| - 1];
    TrimUnpads(s);
    hide Trim, Plain;
  }

  /** The rest of the statement after the name: it starts with a space or the column list, and ends visibly. */
  predicate FollowsName(rest: string) {
    rest != "" && (rest[0] == ' ' || rest[0] == '(') && !IsSpace(rest[|rest| - 1])
  }

  /** A plain statement with a qualified name reads as that name, in any case of the keywords, with or without IF NOT EXISTS,
      also where the column list follows the name at once. */
  lemma PlainStatementReads(create: string, table: string, optional: bool, database: string, name: string, rest: string)
    requires IsWord(create) && IsWord(table) && Lower(create) == "create" && Lower(table) == "table"
    requires BareName(database) && BareName(name) && FollowsName(rest)
    requires var text := database + ("." + (name + rest));
      optional || (!Is(NextWord(" " + text), "IF") && !Is(NextWord(" " + text), "NOT"))
    ensures TableNameOf(Plain(create, table, optional, database + ("." + (name + rest)))) == Some(Name(database, name, true))
  {
    var text := database + ("." + (name + rest));
    PlainKeywords(create, table, optional, text);
    assert text[|text| - 1] == rest[|rest| - 1];
    PlainIsTrimmed(create, table, optional, text);
    hide Plain, AfterKeywords, Identifier, Trim, TrimLeft, BareName, IsWord;
    BareIdentifier(database, "." + (name + rest));
    BareIdentifier(name, rest);
    DotIsNext(name + rest);
    QualifiedName(Plain(create, table, optional, text), " " + text, database, "." + (name + rest), name, rest);
  }

  lemma DotIsNext(text: string)
    ensures TrimLeft("." + text) == "." + text && ("." + text)[1..] == text && Dot("." + text)
  {}

  lemma QualifiedName(query: string, text: string, database: string, next: string, name: string, rest: string)
    requires AfterKeywords(Trim(query)) == Some(text) && Identifier(text) == Some(Parsed(database, next))
    requires TrimLeft(next) == next && Dot(next) && Identifier(next[1..]) == Some(Parsed(name, rest))
    ensures TableNameOf(query) == Some(Name(database, name, true))
  {
    hide AfterKeywords, Identifier, Trim, TrimLeft;
  }

  /** An unqualified name reads as the table's, where no dot follows it. */
  lemma PlainTableReads(create: string, table: string, optional: bool, name: string, rest: string)
    requires IsWord(create) && IsWord(table) && Lower(create) == "create" && Lower(table) == "table"
    requires BareName(name) && FollowsName(rest) && !Dot(TrimLeft(rest))
    requires optional || (!Is(NextWord(" " + (name + rest)), "IF") && !Is(NextWord(" " + (name + rest)), "NOT"))
    ensures TableNameOf(Plain(create, table, optional, name + rest)) == Some(Name("", name, false))
  {
    var text := name + rest;
    PlainKeywords(create, table, optional, text);
    assert text[|text| - 1] == rest[|rest| - 1];
    PlainIsTrimmed(create, table, optional, text);
    hide Plain, AfterKeywords, Identifier, Trim, TrimLeft, BareName, IsWord, NextWord, Is, Lower;
    BareIdentifier(name, rest);
  }

  lemma PlainHead(create: string, table: string, optional: bool, text: string, other: string)
    ensures var q := Plain(create, table, optional, text);
      |text| <= |q| && Plain(create, table, optional, other) == q[..|q| - |text|] + other
  {
    var head := create + (" " + (table + (" " + if optional then "IF" + (" " + ("NOT" + (" " + ("EXISTS" + " ")))) else "")));
    HeadThen(create, table, optional, text);
    HeadThen(create, table, optional, other);
    assert (head + text)[..|head|] == head;
    hide Plain;
  }

  lemma HeadThen(create: string, table: string, optional: bool, text: string)
    ensures Plain(create, table, optional, text) ==
            create + (" " + (table + (" " + if optional then "IF" + (" " + ("NOT" + (" " + ("EXISTS" + " ")))) else ""))) + text
  {
    var tail := if optional then "IF" + (" " + ("NOT" + (" " + ("EXISTS" + " ")))) else "";
    assert (if optional then "IF" + (" " + ("NOT" + (" " + ("EXISTS" + (" " + text))))) else text) == tail + text;
    assert create + (" " + (table + (" " + (tail + text)))) == create + (" " + (table + (" " + tail))) + text;
  }

  /** Renaming a plain statement replaces the qualified name by the printed one and keeps everything else. */
  lemma PlainStatementRenames(create: string, table: string, optional: bool, database: string, name: string, rest: string,
                              newDatabase: string, newName: string)
    requires IsWord(create) && IsWord(table) && Lower(create) == "create" && Lower(table) == "table"
    requires BareName(database) && BareName(name) && FollowsName(rest)
    requires var text := database + ("." + (name + rest));
      optional || (!Is(NextWord(" " + text), "IF") && !Is(NextWord(" " + text), "NOT"))
    ensures Renamed(Plain(create, table, optional, database + ("." + (name + rest))), newDatabase, newName) ==
            Some(Plain(create, table, optional, TableSQL(newDatabase, newName) + rest))
  {
    var text, printed := database + ("." + (name + rest)), TableSQL(newDatabase, newName);
    var q := Plain(create, table, optional, text);
    hide Plain, AfterKeywords, Identifier, TrimLeft, BareName, IsWord, FollowsName, TableSQL, SpanOf, NextWord, Is, Lower, Dot;
    PlainSpan(create, table, optional, database, name, rest);
    PlainHead(create, table, optional, text, printed + rest);
    assert q[..|q| - |text|] + printed + rest == q[..|q| - |text|] + (printed + rest);
  }

  lemma PlainSpan(create: string, table: string, optional: bool, database: string, name: string, rest: string)
    requires IsWord(create) && IsWord(table) && Lower(create) == "create" && Lower(table) == "table"
    requires BareName(database) && BareName(name) && FollowsName(rest)
    requires var text := database + ("." + (name + rest));
      optional || (!Is(NextWord(" " + text), "IF") && !Is(NextWord(" " + text), "NOT"))
    ensures var text := database + ("." + (name + rest));
      SpanOf(Plain(create, table, optional, text)) == Some(Span(text, rest))
  {
    var text := database + ("." + (name + rest));
    PlainKeywords(create, table, optional, text);
    BareStarts(database, "." + (name + rest));
    BareIdentifier(database, "." + (name + rest));
    BareIdentifier(name, rest);
    DotIsNext(name + rest);
    hide Plain, AfterKeywords, Identifier, TrimLeft, BareName, IsWord, FollowsName, NextWord, Is, Lower;
    QualifiedSpan(Plain(create, table, optional, text), " " + text, text, database, "." + (name + rest), name, rest);
  }

  lemma QualifiedSpan(query: string, after: string, text: string, database: string, next: string, name: string, rest: string)
    requires AfterKeywords(query) == Some(after) && TrimLeft(after) == text && Identifier(text) == Some(Parsed(database, next))
    requires TrimLeft(next) == next && Dot(next) && Identifier(next[1..]) == Some(Parsed(name, rest))
    ensures SpanOf(query) == Some(Span(text, rest))
  {
    hide AfterKeywords, Identifier, TrimLeft;
  }

  lemma BareStarts(name: string, rest: string)
    requires BareName(name)
    ensures TrimLeft(" " + (name + rest)) == name + rest
  {
    var u := name + rest;
    assert u[0] == name[0] && (" " + u)[1..] == u;
  }

  /** What is printed for a pair of names: each in backticks, a dot between them, backticks in a name doubled. */
  lemma PrintedExactly(database: string, table: string, c: char, name: string)
    ensures TableSQL(database, table) == "`" + Doubled(database) + "`" + "." + "`" + Doubled(table) + "`"
    ensures Doubled("") == "" && Doubled([c] + name) == (if c == '`' then "``" else [c]) + Doubled(name)
  {
    assert ([c] + name)[1..] == name;
    assert TableSQL(database, table) == ("`" + Doubled(database) + "`") + "." + ("`" + Doubled(table) + "`");
    hide Doubled;
  }

  // ---- the cursor ----

  method SkipSpaces(s: string, pos: nat) returns (next: nat)
    requires pos <= |s|
    ensures pos <= next <= |s| && s[next..] == TrimLeft(s[pos..])
  {
    next := pos;
    while next < |s| && IsSpace(s[next])
      invariant pos <= next <= |s| && TrimLeft(s[next..]) == TrimLeft(s[pos..])
    {
      assert s[next..][1..] == s[next + 1..];
      next := next + 1;
    }
  }

  method WordEnd(s: string, pos: nat) returns (end: nat)
    requires pos <= |s|
    ensures end == pos + WordLength(s[pos..])
  {
    end := pos;
    while end < |s| && IsIdent(s[end])
      invariant pos <= end <= |s| && end - pos + WordLength(s[end..]) == WordLength(s[pos..])
    {
      assert s[end..][1..] == s[end + 1..];
      end := end + 1;
    }
  }

  method ConsumeKeyword(s: string, pos: nat, keyword: string) returns (ok: bool, next: nat)
    requires pos <= |s|
    ensures pos <= next <= |s| && (ok <==> After(s[pos..], keyword).Some?)
    ensures if ok then s[next..] == After(s[pos..], keyword).value else s[next..] == TrimLeft(s[pos..])
  {
    next := SkipSpaces(s, pos);
    var end := WordEnd(s, next);
    assert s[next..end] == s[next..][..end - next] && s[end..] == s[next..][end - next..];
    ok := Is(s[next..end], keyword);
    if ok { next := end; }
  }

  /** The shared start of TableName and tableNameSpan. */
  method ConsumeKeywords(s: string) returns (pos: Option<nat>)
    ensures pos.Some? <==> AfterKeywords(s).Some?
    ensures pos.Some? ==> pos.value <= |s| && TrimLeft(s[pos.value..]) == TrimLeft(AfterKeywords(s).value)
  {
    hide After, Is, WordLength, TrimLeft;
    assert s[0..] == s;
    var ok, p := ConsumeKeyword(s, 0, CREATE);
    if !ok { return None; }
    ok, p := ConsumeKeyword(s, p, TABLE);
    if !ok { return None; }
    ghost var rest := s[p..];
    ok, p := ConsumeKeyword(s, p, IF);
    TrimLeftSuffix(rest);
    ghost var optional := After(rest, IF).GetOr(rest);
    assert TrimLeft(s[p..]) == TrimLeft(optional);
    var start := SkipSpaces(s, p);
    var end := WordEnd(s, start);
    assert s[start..end] == s[start..][..end - start] && s[end..] == s[start..][end - start..];
    if Is(s[start..end], NOT) {
      ok, p := ConsumeKeyword(s, end, EXISTS);
      if !ok { return None; }
    }
    return Some(p);
  }

  method ReadIdentifier(s: string, pos: nat) returns (name: Option<string>, next: nat)
    requires pos <= |s|
    ensures next <= |s| && (name.Some? <==> Identifier(s[pos..]).Some?)
    ensures name.Some? ==> Identifier(s[pos..]) == Some(Parsed(name.value, s[next..]))
  {
    hide Quoted, BareLength, TrimLeft;
    next := SkipSpaces(s, pos);
    ghost var u := s[next..];
    if next >= |s| { return None, next; }
    if s[next] == BACKTICK {
      assert u[1..] == s[next + 1..];
      name, next := ReadQuoted(s, next + 1);
      return;
    }
    var start := next;
    next := BareEnd(s, next);
    assert s[start..next] == u[..next - start] && s[next..] == u[next - start..];
    if next == start { return None, next; }
    return Some(s[start..next]), next;
  }

  method BareEnd(s: string, pos: nat) returns (end: nat)
    requires pos <= |s|
    ensures end == pos + BareLength(s[pos..])
  {
    end := pos;
    while end < |s| && !EndsName(s[end])
      invariant pos <= end <= |s| && end - pos + BareLength(s[end..]) == BareLength(s[pos..])
    {
      assert s[end..][1..] == s[end + 1..];
      end := end + 1;
    }
  }

  method ReadQuoted(s: string, pos: nat) returns (name: Option<string>, next: nat)
    requires pos <= |s|
    ensures next <= |s| && (name.Some? <==> Quoted(s[pos..]).Some?)
    ensures name.Some? ==> Quoted(s[pos..]) == Some(Parsed(name.value, s[next..]))
  {
    next := pos;
    var b := "";
    NothingPrefixed(Quoted(s[pos..]));
    while next < |s|
      invariant pos <= next <= |s|
      invariant Quoted(s[pos..]) == Prefixed(b, Quoted(s[next..]))
      decreases |s| - next
    {
      ghost var u := s[next..];
      if s[next] == BACKTICK {
        if next + 1 < |s| && s[next + 1] == BACKTICK {
          assert u[2..] == s[next + 2..];
          PrefixedMore(b, BACKTICK, Quoted(u[2..]));
          b := b + [BACKTICK];
          next := next + 2;
          continue;
        }
        assert u[1..] == s[next + 1..];
        assert b + "" == b;
        return Some(b), next + 1;
      }
      assert u[1..] == s[next + 1..];
      PrefixedMore(b, s[next], Quoted(u[1..]));
      b := b + [s[next]];
      next := next + 1;
    }
    return None, next;
  }

  function Prefixed(b: string, r: Option<Parsed>): Option<Parsed> {
    if r.None? then None else Some(Parsed(b + r.value.name, r.value.rest))
  }

  lemma NothingPrefixed(r: Option<Parsed>)
    ensures Prefixed("", r) == r
  {
    if r.Some? { assert "" + r.value.name == r.value.name; }
  }

  lemma PrefixedMore(b: string, c: char, r: Option<Parsed>)
    ensures Prefixed(b + [c], r) == Prefixed(b, if r.None? then None else Some(Parsed([c] + r.value.name, r.value.rest)))
  {
    if r.Some? { assert b + [c] + r.value.name == b + ([c] + r.value.name); }
  }

  method TableNameSpan(q: string) returns (span: Option<(nat, nat)>)
    ensures span.Some? <==> SpanOf(q).Some?
    ensures span.Some? ==> span.value.0 <= |q| && span.value.1 <= |q| &&
                           SpanOf(q) == Some(Span(q[span.value.0..], q[span.value.1..]))
  {
    hide AfterKeywords, Identifier, TrimLeft;
    var keywords := ConsumeKeywords(q);
    if keywords.None? { return None; }
    var start := SkipSpaces(q, keywords.value);
    var first, pos := ReadIdentifier(q, start);
    if first.None? { return None; }
    pos := SkipSpaces(q, pos);
    if pos < |q| && q[pos] == '.' {
      assert q[pos..][1..] == q[pos + 1..];
      IdentifierTrims(q[pos + 1..]);
      pos := SkipSpaces(q, pos + 1);
      var second;
      second, pos := ReadIdentifier(q, pos);
      if second.None? { return None; }
    }
    return Some((start, pos));
  }

  method ForTable(q: string, database: string, table: string) returns (renamed: Option<string>)
    ensures renamed == Renamed(q, database, table)
  {
    hide SpanOf, TableSQL;
    var span := TableNameSpan(q);
    if span.None? { return None; }
    return Some(q[..span.value.0] + TableSQL(database, table) + q[span.value.1..]);
  }

  method TableName(query: string) returns (name: Option<Name>)
    ensures name == TableNameOf(query)
  {
    hide AfterKeywords, Identifier, TrimLeft, Trim;
    var q := Trim(query);
    var keywords := ConsumeKeywords(q);
    if keywords.None? { return None; }
    IdentifierTrims(q[keywords.value..]);
    IdentifierTrims(AfterKeywords(q).value);
    var first, pos := ReadIdentifier(q, keywords.value);
    if first.None? { return None; }
    pos := SkipSpaces(q, pos);
    if pos >= |q| || q[pos] != '.' { return Some(Name("", first.value, false)); }
    assert q[pos..][1..] == q[pos + 1..];
    var second;
    second, pos := ReadIdentifier(q, pos + 1);
    if second.None? { return None; }
    return Some(Name(first.value, second.value, true));
  }
}
