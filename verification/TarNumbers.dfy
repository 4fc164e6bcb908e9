/** The numeric fields of tar headers: octal, base-256, and the decimals of pax records, over int64. */
module TarNumbers {
  import opened Results

  type Byte = x: int | 0 <= x < 256 witness 0
  type Bytes = seq<Byte>

  const MAX_INT64 := 0x7FFF_FFFF_FFFF_FFFF

  const SPACE: Byte := 32
  const PLUS: Byte := 43
  const MINUS: Byte := 45
  const ZERO: Byte := 48

  /** Two's complement addition keeps the low 64 bits. */
  function Wrap64(x: int): int {
    (x + MAX_INT64 + 1) % (2 * (MAX_INT64 + 1)) - (MAX_INT64 + 1)
  }

  function Trimmed(field: Bytes): Bytes {
    if field != [] && (field[0] == 0 || field[0] == SPACE) then Trimmed(field[1..])
    else TrimmedRight(field)
  }

  function TrimmedRight(field: Bytes): Bytes {
    if field != [] && (field[|field| - 1] == 0 || field[|field| - 1] == SPACE) then TrimmedRight(field[..|field| - 1])
    else field
  }

  predicate Digits(ds: Bytes, base: nat) {
    forall i | 0 <= i < |ds| :: ZERO <= ds[i] < ZERO + base
  }

  /** The number a digit string denotes. */
  function Number(ds: Bytes, base: nat): nat
    requires Digits(ds, base)
  {
    if ds == [] then 0 else Number(ds[..|ds| - 1], base) * base + (ds[|ds| - 1] - ZERO)
  }

  // ---- octal and base-256 fields ----

  function OctalMeaning(field: Bytes): Option<nat> {
    var ds := Trimmed(field);
    if Digits(ds, 8) && Number(ds, 8) <= MAX_INT64 then Some(Number(ds, 8)) else None
  }

  function BigEndian(bs: Bytes): nat {
    if bs == [] then 0 else BigEndian(bs[..|bs| - 1]) * 256 + bs[|bs| - 1]
  }

  function Base256Meaning(field: Bytes): Option<nat> {
    if field == [] then Some(0)
    else if (field[0] / 64) % 2 == 1 then None
    else
      var value := BigEndian([field[0] % 128] + field[1..]);
      if value <= MAX_INT64 then Some(value) else None
  }

  function NumericMeaning(field: Bytes): Option<nat> {
    if field != [] && field[0] >= 128 then Base256Meaning(field) else OctalMeaning(field)
  }

  lemma {:induction false} NumberGrows(ds: Bytes, i: nat, base: nat)
    requires base >= 1 && i <= |ds| && Digits(ds, base)
    ensures Digits(ds[..i], base) && Number(ds[..i], base) <= Number(ds, base)
    decreases |ds| - i
  {
    if i == |ds| {
      assert ds[..i] == ds;
    } else {
      assert ds[..i + 1][..i] == ds[..i];
      assert Number(ds[..i + 1], base) == Number(ds[..i], base) * base + (ds[i] - ZERO);
      hide Number;
      NumberGrows(ds, i + 1, base);
      TimesGrows(Number(ds[..i], base), base);
    }
  }

  lemma TimesGrows(a: nat, base: nat)
    requires base >= 1
    ensures a <= a * base
  {}

  lemma {:induction false} BigEndianGrows(bs: Bytes, i: nat)
    requires i <= |bs|
    ensures BigEndian(bs[..i]) <= BigEndian(bs)
    decreases |bs| - i
  {
    if i == |bs| {
      assert bs[..i] == bs;
    } else {
      BigEndianGrows(bs, i + 1);
      assert bs[..i + 1][..i] == bs[..i];
    }
  }

  /** Rejects exactly non-octal fields and values above the int64 maximum, without ever leaving int64. */
  method ParseTarOctal(field: Bytes) returns (r: Option<nat>)
    ensures r == OctalMeaning(field)
  {
    var ds := Trimmed(field);
    if ds == [] { return Some(0); }
    var value, i := 0, 0;
    while i < |ds|
      invariant 0 <= i <= |ds|
      invariant Digits(ds[..i], 8) && value == Number(ds[..i], 8) <= MAX_INT64
    {
      var b := ds[i];
      if b < ZERO || b > ZERO + 7 {
        return None;
      }
      assert ds[..i + 1][..i] == ds[..i] && Digits(ds[..i + 1], 8);
      if value > (MAX_INT64 - (b - ZERO)) / 8 {
        if Digits(ds, 8) { NumberGrows(ds, i + 1, 8); }
        return None;
      }
      value := value * 8 + (b - ZERO);
      i := i + 1;
    }
    assert ds[..i] == ds;
    return Some(value);
  }

  method ParseTarBase256(field: Bytes) returns (r: Option<nat>)
    ensures r == Base256Meaning(field)
  {
    if |field| == 0 { return Some(0); }
    if (field[0] / 64) % 2 == 1 { return None; }
    ghost var bs: Bytes := [field[0] % 128] + field[1..];
    var value, i := field[0] % 128, 1;
    assert bs[..1] == [bs[0]] && bs[..1][..0] == [];
    while i < |field|
      invariant 1 <= i <= |field|
      invariant value == BigEndian(bs[..i]) && 0 <= value <= MAX_INT64
    {
      var b := field[i];
      assert bs[..i + 1][..i] == bs[..i] && bs[i] == b;
      if value > (MAX_INT64 - b) / 256 {
        BigEndianGrows(bs, i + 1);
        return None;
      }
      value := value * 256 + b;
      i := i + 1;
    }
    assert bs[..i] == bs;
    return Some(value);
  }

  method ParseTarNumeric(field: Bytes) returns (r: Option<nat>)
    ensures r == NumericMeaning(field)
  {
    if |field| > 0 && field[0] >= 128 {
      r := ParseTarBase256(field);
    } else {
      r := ParseTarOctal(field);
    }
  }

  // ---- writing octal ----

  function Power(base: nat, n: nat): nat {
    if n == 0 then 1 else base * Power(base, n - 1)
  }

  /** `n` octal digits, zero-filled. */
  function OctalDigits(v: nat, n: nat): (ds: Bytes)
    ensures |ds| == n && Digits(ds, 8)
  {
    if n == 0 then [] else OctalDigits(v / 8, n - 1) + [ZERO + v % 8]
  }

  /** A numeric field of width `width`: zero-filled octal digits and a NUL, as the ustar format writes them. */
  function OctalField(v: nat, width: nat): (field: Bytes)
    requires width >= 1
    ensures |field| == width
  {
    OctalDigits(v, width - 1) + [0]
  }

  lemma {:induction false} OctalDigitsDenote(v: nat, n: nat)
    requires v < Power(8, n)
    ensures Number(OctalDigits(v, n), 8) == v
  {
    if n > 0 {
      assert v / 8 < Power(8, n - 1);
      OctalDigitsDenote(v / 8, n - 1);
      assert OctalDigits(v, n)[..n - 1] == OctalDigits(v / 8, n - 1);
    }
  }

  /** Parsing an octal field gives back the number written. */
  lemma OctalFieldDenotes(v: nat, width: nat)
    requires width >= 2 && v < Power(8, width - 1) && v <= MAX_INT64
    ensures OctalMeaning(OctalField(v, width)) == Some(v)
    ensures NumericMeaning(OctalField(v, width)) == Some(v)
  {
    var ds, field := OctalDigits(v, width - 1), OctalField(v, width);
    assert field[0] == ds[0] && field[..|field| - 1] == ds;
    assert TrimmedRight(field) == TrimmedRight(ds) == ds;
    assert Trimmed(field) == ds;
    OctalDigitsDenote(v, width - 1);
  }

  // ---- decimals ----

  /** strconv.ParseInt(s, 10, 64). */
  function ParseInt(s: Bytes): Option<int> {
    if s == [] then None
    else
      var signed := s[0] == PLUS || s[0] == MINUS;
      var ds := if signed then s[1..] else s;
      if ds == [] || !Digits(ds, 10) then None
      else
        var n: int := if s[0] == MINUS then 0 - Number(ds, 10) else Number(ds, 10);
        if 0 - MAX_INT64 - 1 <= n <= MAX_INT64 then Some(n) else None
  }

  function Decimal(n: nat): (ds: Bytes)
    ensures ds != [] && Digits(ds, 10)
  {
    if n < 10 then [ZERO + n] else Decimal(n / 10) + [ZERO + n % 10]
  }

  lemma {:induction false} DecimalDenotes(n: nat)
    ensures Number(Decimal(n), 10) == n
  {
    if n < 10 {
      assert Decimal(n)[..0] == [];
    } else {
      DecimalDenotes(n / 10);
      assert Decimal(n)[..|Decimal(n)| - 1] == Decimal(n / 10);
    }
  }

  lemma ParseDecimal(n: nat)
    requires n <= MAX_INT64
    ensures ParseInt(Decimal(n)) == Some(n)
  {
    DecimalDenotes(n);
    assert ZERO <= Decimal(n)[0] < ZERO + 10;
  }

  /** A sign may precede the digits; a text with anything else, or beyond int64, is no number. */
  lemma SignedDecimals(n: nat, ds: Bytes)
    ensures ParseInt([45] + Decimal(n)) == if n <= 0x8000_0000_0000_0000 then Some(0 - n) else None
    ensures ParseInt([43] + Decimal(n)) == ParseInt(Decimal(n)) == if n < 0x8000_0000_0000_0000 then Some(n) else None
    ensures ParseInt([]).None? && ParseInt([43]).None? && ParseInt([45]).None?
    ensures (exists i | 0 <= i < |ds| :: !(48 <= ds[i] <= 57) && !(i == 0 && ds[0] in {43, 45})) ==> ParseInt(ds).None?
  {
    DecimalDenotes(n);
    var d := Decimal(n);
    hide Decimal, Number;
    assert ([45] + d)[1..] == d && ([43] + d)[1..] == d && 48 <= d[0] <= 57;
    if i :| 0 <= i < |ds| && !(48 <= ds[i] <= 57) && !(i == 0 && ds[0] in {43, 45}) {
      if ds[0] == 43 || ds[0] == 45 { assert ds[1..][i - 1] == ds[i]; }
    }
  }

  /** NULs and spaces around the digits do not count, and nothing but them is zero. */
  lemma {:induction false} PaddingIsIgnored(field: Bytes, pad: Byte)
    requires pad == 0 || pad == 32
    ensures OctalMeaning([pad] + field) == OctalMeaning(field)
    ensures OctalMeaning([]) == Some(0)
  {
    assert ([pad] + field)[1..] == field;
  }
}
