/** The resource settings of an insert and how a retry lowers them. */
module InsertSettings {
  import opened Results

  const MIN_RETRY_MAX_BLOCK_SIZE := 8192
  const MAX_THREADS := "max_threads"
  const MAX_INSERT_THREADS := "max_insert_threads"
  const MAX_BLOCK_SIZE := "max_block_size"
  const TABLE_FILTERS := "additional_table_filters"

  /** A setting's text: a number as strconv.Atoi reads it, the filter on a range of part offsets, or anything else. */
  datatype Value = Number(value: int) | Offsets(start: nat, end: nat) | Other(text: string)

  type Settings = map<string, Value>

  function PositiveInt(settings: Settings, name: string): (r: Result<Option<nat>>)
    ensures r.Ok? && r.value.Some? ==> r.value.value >= 1
  {
    if name !in settings then Ok(None)
    else if !settings[name].Number? then Err("parse clickhouse setting")
    else if settings[name].value < 1 then Err("clickhouse setting must be at least 1")
    else Ok(Some(settings[name].value))
  }

  function Max(a: int, b: int): int {
    if a >= b then a else b
  }

  /** The floor below which a retry does not lower a setting. */
  function Floor(name: string): nat {
    if name == MAX_BLOCK_SIZE then MIN_RETRY_MAX_BLOCK_SIZE else 1
  }

  function Lowered(n: nat, floor: nat): (m: nat)
    requires n > floor >= 1
    ensures floor <= m < n
  {
    Max(n / 2, floor)
  }

  /** How many halvings bring `n` down to `floor`. */
  function Halvings(n: nat, floor: nat): (h: nat)
    requires floor >= 1
    ensures h == 0 <==> n <= floor
  {
    if n <= floor then 0 else 1 + Halvings(Lowered(n, floor), floor)
  }

  function SettingHalvings(settings: Settings, name: string): nat {
    if name in settings && settings[name].Number? && settings[name].value >= 0
    then Halvings(settings[name].value, Floor(name)) else 0
  }

  /** The halvings left in the setting that is furthest from its floor. */
  function Distance(settings: Settings): nat {
    Max(SettingHalvings(settings, MAX_BLOCK_SIZE),
        Max(SettingHalvings(settings, MAX_THREADS), SettingHalvings(settings, MAX_INSERT_THREADS)))
  }

  const REDUCIBLE: seq<string> := [MAX_THREADS, MAX_INSERT_THREADS, MAX_BLOCK_SIZE]

  predicate Readable(settings: Settings) {
    forall name | name in REDUCIBLE :: PositiveInt(settings, name).Ok?
  }

  function LoweredValue(settings: Settings, name: string): Option<Value> {
    if name !in settings then None
    else if name in REDUCIBLE && settings[name].Number? && settings[name].value > Floor(name)
    then Some(Number(Lowered(settings[name].value, Floor(name))))
    else Some(settings[name])
  }

  lemma ReducedAlone(settings: Settings, name: string)
    requires name in REDUCIBLE && PositiveInt(settings, name).Ok?
    ensures var current := PositiveInt(settings, name).value;
            var lower := current.Some? && current.value > Floor(name);
      && (lower <==> SettingHalvings(settings, name) > 0)
      && (name in settings ==>
            LoweredValue(settings, name) == Some(if lower then Number(Lowered(current.value, Floor(name))) else settings[name]))
      && (lower ==> name in settings)
  {
    hide Lowered;
  }

  lemma SomeHalvings(settings: Settings)
    ensures Distance(settings) > 0 <==> exists name | name in REDUCIBLE :: SettingHalvings(settings, name) > 0
  {
    hide SettingHalvings;
    assert MAX_THREADS in REDUCIBLE && MAX_INSERT_THREADS in REDUCIBLE && MAX_BLOCK_SIZE in REDUCIBLE;
  }

  method ReduceInsertSelectSettings(settings: Settings) returns (next: Result<Settings>, reduced: bool)
    ensures next.Ok? <==> Readable(settings)
    ensures next.Ok? ==>
              && (reduced <==> Distance(settings) > 0)
              && (forall name :: name in next.value <==> name in settings)
              && (forall name | name in settings :: LoweredValue(settings, name) == Some(next.value[name]))
  {
    OthersStay(settings);
    hide Halvings, Lowered, LoweredValue, SettingHalvings, PositiveInt, Distance;
    var out := settings;
    reduced := false;
    var i := 0;
    while i < |REDUCIBLE|
      invariant 0 <= i <= |REDUCIBLE|
      invariant out.Keys == settings.Keys
      invariant forall name | name in REDUCIBLE[..i] :: PositiveInt(settings, name).Ok?
      invariant forall name | name in settings ::
                  Some(out[name]) == if name in REDUCIBLE[..i] then LoweredValue(settings, name) else Some(settings[name])
      invariant reduced <==> exists name | name in REDUCIBLE[..i] :: SettingHalvings(settings, name) > 0
    {
      var name := REDUCIBLE[i];
      assert name in REDUCIBLE && REDUCIBLE[..i + 1] == REDUCIBLE[..i] + [name];
      var current := PositiveInt(settings, name);
      if current.Err? {
        return Err(current.message), false;
      }
      ReducedAlone(settings, name);
      if current.value.Some? && current.value.value > Floor(name) {
        out := out[name := Number(Lowered(current.value.value, Floor(name)))];
        reduced := true;
      }
      i := i + 1;
    }
    next := Ok(out);
    assert REDUCIBLE[..i] == REDUCIBLE;
    SomeHalvings(settings);
  }

  lemma OthersStay(settings: Settings)
    ensures forall name | name in settings && name !in REDUCIBLE :: LoweredValue(settings, name) == Some(settings[name])
  {
    hide Lowered;
  }

  /** A retry brings the furthest setting exactly one halving closer to its floor. */
  lemma ReductionLowersDistance(settings: Settings, next: Settings)
    requires Readable(settings) && Distance(settings) > 0
    requires forall name :: name in next <==> name in settings
    requires forall name | name in settings :: LoweredValue(settings, name) == Some(next[name])
    ensures Distance(next) == Distance(settings) - 1
    ensures Readable(next)
  {
    assert MAX_THREADS in REDUCIBLE && MAX_INSERT_THREADS in REDUCIBLE && MAX_BLOCK_SIZE in REDUCIBLE;
    forall name | name in REDUCIBLE
      ensures SettingHalvings(next, name) == Max(SettingHalvings(settings, name) - 1, 0) && PositiveInt(next, name).Ok?
    {
      assert PositiveInt(settings, name).Ok?;
    }
  }

  /** Which settings a retry reads, and when it cannot: a thread or block setting that is no number of at least one. */
  lemma ReadableExactly(settings: Settings)
    ensures Readable(settings) <==>
              forall name | name in {"max_threads", "max_insert_threads", "max_block_size"} && name in settings ::
                settings[name].Number? && settings[name].value >= 1
  {
    assert forall name :: name in REDUCIBLE <==> name in {"max_threads", "max_insert_threads", "max_block_size"};
    forall name ensures PositiveInt(settings, name).Ok? <==> name !in settings || (settings[name].Number? && settings[name].value >= 1) {}
    hide PositiveInt;
  }

  /** What a retry makes of a setting: threads are halved down to one, the block size down to 8192 rows, the rest is kept. */
  lemma LoweredExactly(settings: Settings, name: string)
    requires Readable(settings) && name in settings
    ensures LoweredValue(settings, name) == Some(
              if !settings[name].Number? then settings[name]
              else if name in {"max_threads", "max_insert_threads"} && settings[name].value >= 2 then Number(settings[name].value / 2)
              else if name == "max_block_size" && settings[name].value > 8192
              then Number(if settings[name].value >= 16384 then settings[name].value / 2 else 8192)
              else settings[name])
  {
    ReadableExactly(settings);
    assert forall x :: x in REDUCIBLE <==> x in {"max_threads", "max_insert_threads", "max_block_size"};
    hide Readable;
  }
}
