/** Pax extended header records: "length key=value" lines whose length counts itself. */
module PaxRecords {
  import opened Results
  import opened TarNumbers

  const NEWLINE: Byte := 10
  const EQUALS: Byte := 61

  type Records = map<Bytes, Bytes>

  /** bytes.IndexByte; |s| when absent. */
  function IndexOf(s: Bytes, c: Byte): (i: nat)
    ensures i <= |s| && c !in s[..i] && (i < |s| ==> s[i] == c)
  {
    if s == [] || s[0] == c then 0
    else
      assert s == [s[0]] + s[1..];
      assert s[..1 + IndexOf(s[1..], c)] == [s[0]] + s[1..][..IndexOf(s[1..], c)];
      1 + IndexOf(s[1..], c)
  }

  lemma IndexOfFirst(a: Bytes, c: Byte, b: Bytes)
    requires c !in a
    ensures IndexOf(a + [c] + b, c) == |a|
  {
    assert (a + [c] + b)[|a|] == c;
  }

  datatype Record = Record(key: Bytes, value: Bytes, length: nat)

  /** The first record of a payload. */
  function FirstRecord(payload: Bytes): (r: Option<Record>)
    ensures r.Some? ==> 0 < r.value.length <= |payload|
  {
    var space := IndexOf(payload, SPACE);
    if space == |payload| || space == 0 then None
    else
      var length := ParseInt(payload[..space]);
      if length.None? || length.value <= space + 1 || length.value > |payload| then None
      else
        var record := payload[space + 1..length.value];
        if record[|record| - 1] != NEWLINE then None
        else
          var line := record[..|record| - 1];
          var equals := IndexOf(line, EQUALS);
          if equals == |line| || equals == 0 then None
          else Some(Record(line[..equals], line[equals + 1..], length.value))
  }

  /** All records of a payload, later ones overriding, on top of `seen`. */
  function AllRecords(payload: Bytes, seen: Records): Option<Records>
    decreases |payload|
  {
    if payload == [] then Some(seen)
    else
      var first := FirstRecord(payload);
      if first.None? then None
      else AllRecords(payload[first.value.length..], seen[first.value.key := first.value.value])
  }

  method ReadPAXRecords(payload: Bytes) returns (records: Option<Records>)
    ensures records == AllRecords(payload, map[])
  {
    var seen: Records, rest := map[], payload;
    while |rest| > 0
      invariant AllRecords(rest, seen) == AllRecords(payload, map[])
      decreases |rest|
    {
      var first := FirstRecord(rest);
      if first.None? { return None; }
      seen := seen[first.value.key := first.value.value];
      rest := rest[first.value.length..];
    }
    return Some(seen);
  }

  // ---- writing ----

  lemma {:induction false} DecimalIsShort(n: nat)
    ensures |Decimal(n)| <= n / 2 + 1
  {
    if n >= 10 { DecimalIsShort(n / 10); }
  }

  lemma {:induction false} DecimalMonotone(m: nat, n: nat)
    requires m <= n
    ensures |Decimal(m)| <= |Decimal(n)|
  {
    if m >= 10 { DecimalMonotone(m / 10, n / 10); }
  }

  /** The length a record of `rest` further bytes must carry: its own digits included, found by trying ever more digits. */
  function SelfLength(rest: nat, digits: nat): (n: nat)
    requires |Decimal(rest + digits)| >= digits
    ensures n == |Decimal(n)| + rest
    decreases rest + 2 - digits
  {
    DecimalMonotone(rest + digits, rest + digits + 1);
    DecimalIsShort(rest + digits);
    if |Decimal(rest + digits)| == digits then rest + digits else SelfLength(rest, digits + 1)
  }

  /** One record as the pax format lays it out. */
  function RecordBytes(key: Bytes, value: Bytes): Bytes {
    var body := [SPACE] + key + [EQUALS] + value + [NEWLINE];
    Decimal(SelfLength(|body|, 0)) + body
  }

  /** The reader's cuts of a payload that starts with a record. */
  lemma RecordCuts(digits: Bytes, line: Bytes, rest: Bytes)
    requires SPACE !in digits
    ensures var payload := digits + ([SPACE] + line + [NEWLINE]) + rest;
            var n := |digits| + |line| + 2;
      && IndexOf(payload, SPACE) == |digits| && payload[..|digits|] == digits
      && payload[|digits| + 1..n] == line + [NEWLINE]
      && (line + [NEWLINE])[..|line|] == line
  {
    var payload := digits + ([SPACE] + line + [NEWLINE]) + rest;
    assert payload == digits + [SPACE] + (line + [NEWLINE] + rest);
    IndexOfFirst(digits, SPACE, line + [NEWLINE] + rest);
  }

  lemma NoSpace(digits: Bytes)
    requires Digits(digits, 10)
    ensures SPACE !in digits
  {}

  /** Reading the first record undoes writing it, whatever follows. */
  lemma FirstRecordOfWritten(key: Bytes, value: Bytes, rest: Bytes)
    requires key != [] && EQUALS !in key && |RecordBytes(key, value)| <= MAX_INT64
    ensures FirstRecord(RecordBytes(key, value) + rest) == Some(Record(key, value, |RecordBytes(key, value)|))
  {
    hide IndexOf, ParseInt, Decimal, SelfLength, Digits;
    var line := key + [EQUALS] + value;
    var body := [SPACE] + key + [EQUALS] + value + [NEWLINE];
    assert body == [SPACE] + line + [NEWLINE];
    var n := SelfLength(|body|, 0);
    var digits := Decimal(n);
    assert |RecordBytes(key, value)| == n == |digits| + |line| + 2;
    ParseDecimal(n);
    NoSpace(digits);
    RecordCuts(digits, line, rest);
    IndexOfFirst(key, EQUALS, value);
    assert line[..|key|] == key && line[|key| + 1..] == value;
  }

  /** A payload written record by record. */
  function Written(records: seq<(Bytes, Bytes)>): Bytes {
    if records == [] then [] else RecordBytes(records[0].0, records[0].1) + Written(records[1..])
  }

  function Folded(records: seq<(Bytes, Bytes)>, seen: Records): Records {
    if records == [] then seen else Folded(records[1..], seen[records[0].0 := records[0].1])
  }

  /** Reading undoes writing for every list of records. */
  lemma {:induction false} RecordsRoundTrip(records: seq<(Bytes, Bytes)>, seen: Records)
    requires forall r | r in records :: r.0 != [] && EQUALS !in r.0
    requires |Written(records)| <= MAX_INT64
    ensures AllRecords(Written(records), seen) == Some(Folded(records, seen))
  {
    if records != [] {
      var first, rest := RecordBytes(records[0].0, records[0].1), Written(records[1..]);
      FirstRecordOfWritten(records[0].0, records[0].1, rest);
      assert (first + rest)[|first|..] == rest;
      RecordsRoundTrip(records[1..], seen[records[0].0 := records[0].1]);
    }
  }

  /** The payload starts with a number, a space, a key without "=", "=", a value and a newline, and the number counts it all. */
  ghost predicate StartsWithRecord(payload: Bytes, digits: Bytes, key: Bytes, value: Bytes, length: nat) {
    && length <= |payload| && key != [] && (forall i | 0 <= i < |key| :: key[i] != 61)
    && (forall i | 0 <= i < |digits| :: digits[i] != 32) && ParseInt(digits) == Some(length)
    && payload[..length] == digits + [32] + key + [61] + value + [10]
  }

  /** Exactly which payloads have a first record, and what it is. */
  lemma FirstRecordExactly(payload: Bytes, key: Bytes, value: Bytes, length: nat)
    ensures FirstRecord(payload) == Some(Record(key, value, length)) <==>
              exists digits :: StartsWithRecord(payload, digits, key, value, length)
  {
    hide ParseInt;
    if FirstRecord(payload) == Some(Record(key, value, length)) {
      RecordHasForm(payload, key, value, length);
      assert StartsWithRecord(payload, payload[..IndexOf(payload, SPACE)], key, value, length);
    }
    if digits :| StartsWithRecord(payload, digits, key, value, length) {
      FormIsRecord(payload, digits, key, value, length);
    }
  }

  lemma RecordHasForm(payload: Bytes, key: Bytes, value: Bytes, length: nat)
    requires FirstRecord(payload) == Some(Record(key, value, length))
    ensures length <= |payload| && key != [] && forall i | 0 <= i < |key| :: key[i] != 61
    ensures var digits := payload[..IndexOf(payload, SPACE)];
      && (forall i | 0 <= i < |digits| :: digits[i] != 32) && ParseInt(digits) == Some(length)
      && payload[..length] == digits + [32] + key + [61] + value + [10]
  {
    hide ParseInt;
    var space := IndexOf(payload, SPACE);
    var record := payload[space + 1..length];
    var line := record[..|record| - 1];
    var equals := IndexOf(line, EQUALS);
    hide IndexOf;
    assert key == line[..equals] && value == line[equals + 1..];
    assert line == key + [61] + value && record == line + [10];
    assert payload[..length] == payload[..space] + [32] + record;
    forall i | 0 <= i < |key| ensures key[i] != 61 { assert key[i] in line[..equals]; }
    forall i | 0 <= i < space ensures payload[..space][i] != 32 { assert payload[..space][i] in payload[..space]; }
  }

  lemma FormIsRecord(payload: Bytes, digits: Bytes, key: Bytes, value: Bytes, length: nat)
    requires length <= |payload| && key != [] && (forall i | 0 <= i < |key| :: key[i] != 61)
    requires (forall i | 0 <= i < |digits| :: digits[i] != 32) && ParseInt(digits) == Some(length)
    requires payload[..length] == digits + [32] + key + [61] + value + [10]
    ensures FirstRecord(payload) == Some(Record(key, value, length))
  {
    assert digits != [];
    hide ParseInt;
    var line, rest := key + [61] + value, payload[length..];
    assert payload == digits + ([SPACE] + line + [NEWLINE]) + rest by {
      assert payload == payload[..length] + rest;
      assert digits + [32] + key + [61] + value + [10] == digits + ([SPACE] + line + [NEWLINE]);
    }
    hide IndexOf;
    RecordCuts(digits, line, rest);
    IndexOfFirst(key, EQUALS, value);
    assert length == |digits| + |line| + 2;
    assert line[..|key|] == key && line[|key| + 1..] == value;
  }
}
