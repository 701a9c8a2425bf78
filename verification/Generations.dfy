/**
 The configured list of OCR generations: rows are read, rows on removed components are migrated, ids
 and names are given to rows without, and the primary row is repaired.

 Specification functions say what each step returns; the methods do the same work in loops.
 */
module Generations {
  import opened Sequences
  import opened Text
  import opened JsonValues
  import opened Engines
  import opened Naming

  const MAX_STAGE_WORKERS := 64
  const MAX_QUEUE_CAPACITY := 256
  const MAX_I64 := 9223372036854775807
  const MAX_U32 := 4294967295
  const POOL_KEYS := ["stage_workers", "queue_capacity", "stage_device", "precision"]

  /** Marks a retired row whose sidecars have no name in them. */
  const RETIRED_FROM_PRIMARY := "retired_from_primary"

  /** The stage names in the order a sorted map prints them. */
  const STAGE_ORDER := ["detect", "engine", "layout", "post"]

  /** Which row and field a refusal names, or an id number or name counter past its integer type. */
  datatype Error = At(row: Option<nat>, field: Option<string>) | Overflow

  datatype Result<+T> = Ok(value: T) | Err(error: Error) {
    predicate IsFailure() {
      Err?
    }

    function PropagateFailure<U>(): Result<U>
      requires Err?
    {
      Err(error)
    }

    function Extract(): T
      requires Ok?
    {
      value
    }
  }

  function RowErr<T>(index: nat, field: string): Result<T> {
    Err(At(Some(index), Some(field)))
  }

  function ListErr<T>(): Result<T> {
    Err(At(None, None))
  }

  datatype Pools = Pools(workers: map<string, nat>, capacity: map<string, nat>, device: map<string, string>)

  const NO_POOLS := Pools(map[], map[], map[])

  // --- printing -------------------------------------------------------------------------

  function WidthFields(m: map<string, nat>, keys: seq<string>): Fields {
    if keys == [] then []
    else (if keys[0] in m then [Field(keys[0], Num(Int(m[keys[0]])))] else []) + WidthFields(m, keys[1..])
  }

  function DeviceFields(m: map<string, string>, keys: seq<string>): Fields {
    if keys == [] then []
    else (if keys[0] in m then [Field(keys[0], Str(m[keys[0]]))] else []) + DeviceFields(m, keys[1..])
  }

  function PoolsJson(p: Pools): Json {
    Obj([Field("stage_workers", Obj(WidthFields(p.workers, STAGE_ORDER))),
         Field("queue_capacity", Obj(WidthFields(p.capacity, STAGE_ORDER))),
         Field("stage_device", Obj(DeviceFields(p.device, STAGE_ORDER)))])
  }

  /** Flagged primary, and not switched off. */
  predicate IsEnabledPrimary(row: Fields) {
    ValueBool(Get(row, "primary"), false) && ValueBool(Get(row, "enabled"), true)
  }

  /** One row. A `retired` one names an engine that is gone, and `raw` holds its fields from the file. */
  datatype Generation = Generation(
      id: string, name: string, engine: string, primary: bool, enabled: bool, detector: Option<string>,
      patchBudget: nat, pools: Pools, precision: string, pick: Option<string>, why: string,
      retired: bool, raw: Option<Fields>) {

    predicate Runnable() {
      enabled && !retired
    }

    function SidecarSuffix(): string {
      if primary then ".mokuro" else "." + name + ".mokuro"
    }

    predicate WasPrimary() {
      && retired && raw.Some?
      && (ValueBool(Get(raw.value, RETIRED_FROM_PRIMARY), false) || IsEnabledPrimary(raw.value))
    }

    /** What the names of a row's files end in. */
    function FilesSuffix(): string {
      if WasPrimary() then ".mokuro" else SidecarSuffix()
    }

    /** The row as it is stored. */
    function ToFields(): Fields {
      if retired && raw.Some? then
        Put(Put(Put(Put(raw.value, "id", Str(id)), "name", Str(name)), "primary", Bool(false)), "enabled", Bool(false))
      else
        var start := Put(Put(Put(Put(Put([], "id", Str(id)), "name", Str(name)), "primary", Bool(primary)),
                             "enabled", Bool(enabled)), "engine", Str(engine));
        var withDetector := if detector.Some? then Put(start, "detector", Str(detector.value)) else start;
        var withBudget := Put(withDetector, "patch_budget", Num(Int(patchBudget)));
        var withPrecision := if precision != DEFAULT_PRECISION_MODE then Put(withBudget, "precision", Str(precision))
                             else withBudget;
        var withPools := Put(withPrecision, "pools", PoolsJson(pools));
        if pick.Some? then Put(Put(withPools, "precision_pick", Str(pick.value)), "precision_why", Str(why))
        else withPools
    }
  }

  /** What a new installation starts with, under a given id and name. */
  function DefaultRow(id: string, name: string): Generation {
    Generation(id, name, DEFAULT_ENGINE, true, true, Some(DEFAULT_DETECTOR), DEFAULT_PATCH_BUDGET, NO_POOLS,
               DEFAULT_PRECISION_MODE, None, "", false, None)
  }

  function Ids(rows: seq<Generation>): seq<string> {
    seq(|rows|, i requires 0 <= i < |rows| => rows[i].id)
  }

  function Names(rows: seq<Generation>): seq<string> {
    seq(|rows|, i requires 0 <= i < |rows| => rows[i].name)
  }

  function RowsJson(rows: seq<Generation>): Json {
    Arr(seq(|rows|, i requires 0 <= i < |rows| => Obj(rows[i].ToFields())))
  }

  // --- ids ------------------------------------------------------------------------------

  function RowId(row: Fields): string {
    ValueStr(Get(row, "id"))
  }

  /** The ids the rows come with, in order; refused when one is unusable or repeats. */
  function GivenIds(rows: seq<Fields>): (r: Result<seq<string>>)
    decreases |rows|
  {
    if rows == [] then Ok([])
    else
      var n := |rows| - 1;
      var taken :- GivenIds(rows[..n]);
      var id := RowId(rows[n]);
      if id == "" then Ok(taken)
      else if !IsValidId(id) || id in taken then RowErr(n, "id")
      else Ok(taken + [id])
  }

  /** Every row's id, and every id in use, after minting one for each row without. */
  function MintedIds(rows: seq<Fields>, taken: seq<string>): (r: Result<(seq<string>, seq<string>)>)
    ensures r.Ok? ==> |r.value.0| == |rows|
    decreases |rows|
  {
    if rows == [] then Ok(([], taken))
    else
      var n := |rows| - 1;
      var before :- MintedIds(rows[..n], taken);
      var id := RowId(rows[n]);
      if id != "" then Ok((before.0 + [id], before.1))
      else
        match MintId(before.1)
        case None => Err(Overflow)
        case Some(minted) => Ok((before.0 + [minted], before.1 + [minted]))
  }

  function IdsOf(rows: seq<Fields>): (r: Result<seq<string>>)
    ensures r.Ok? ==> |r.value| == |rows|
  {
    var taken :- GivenIds(rows);
    var minted :- MintedIds(rows, taken);
    Ok(minted.0)
  }

  lemma GivenIdsNext(rows: seq<Fields>, i: nat, taken: seq<string>)
    requires i < |rows| && GivenIds(rows[..i]) == Ok(taken)
    ensures var id := RowId(rows[i]);
      GivenIds(rows[..i + 1]) ==
        if id == "" then Ok(taken) else if !IsValidId(id) || id in taken then RowErr(i, "id") else Ok(taken + [id])
  {
    assert rows[..i + 1][..i] == rows[..i];
  }

  method TakeGivenIds(rows: seq<Fields>) returns (r: Result<seq<string>>)
    ensures r == GivenIds(rows)
  {
    var taken: seq<string> := [];
    for i := 0 to |rows|
      invariant GivenIds(rows[..i]) == Ok(taken)
    {
      GivenIdsNext(rows, i, taken);
      var id := RowId(rows[i]);
      if id != "" {
        if !IsValidId(id) || id in taken {
          GivenIdsStop(rows, i + 1);
          return RowErr(i, "id");
        }
        taken := taken + [id];
      }
    }
    WholePrefix(rows);
    r := Ok(taken);
  }

  method MintMissingIds(rows: seq<Fields>, given: seq<string>) returns (r: Result<(seq<string>, seq<string>)>)
    ensures r == MintedIds(rows, given)
  {
    var ids: seq<string>, taken := [], given;
    for i := 0 to |rows|
      invariant MintedIds(rows[..i], given) == Ok((ids, taken))
    {
      assert rows[..i + 1][..i] == rows[..i];
      var id := RowId(rows[i]);
      if id == "" {
        var minted := MintGenerationId(taken);
        if minted.None? {
          MintedIdsStop(rows, given, i + 1);
          return Err(Overflow);
        }
        taken := taken + [minted.value];
        ids := ids + [minted.value];
      } else {
        ids := ids + [id];
      }
    }
    WholePrefix(rows);
    r := Ok((ids, taken));
  }

  method AssignIds(rows: seq<Fields>) returns (r: Result<seq<string>>)
    ensures r == IdsOf(rows)
  {
    var taken := TakeGivenIds(rows);
    if taken.Err? {
      return taken;
    }
    var minted := MintMissingIds(rows, taken.value);
    r := if minted.Err? then Err(minted.error) else Ok(minted.value.0);
  }

  /** The first refusal is the answer. */
  lemma {:induction false} GivenIdsStop(rows: seq<Fields>, n: nat)
    requires n <= |rows| && GivenIds(rows[..n]).Err?
    ensures GivenIds(rows) == GivenIds(rows[..n])
    decreases |rows| - n
  {
    if n == |rows| {
      assert rows[..n] == rows;
    } else {
      assert rows[..n + 1][..n] == rows[..n];
      GivenIdsStop(rows, n + 1);
    }
  }

  lemma {:induction false} MintedIdsStop(rows: seq<Fields>, taken: seq<string>, n: nat)
    requires n <= |rows| && MintedIds(rows[..n], taken).Err?
    ensures MintedIds(rows, taken) == MintedIds(rows[..n], taken)
    decreases |rows| - n
  {
    if n == |rows| {
      assert rows[..n] == rows;
    } else {
      assert rows[..n + 1][..n] == rows[..n];
      MintedIdsStop(rows, taken, n + 1);
    }
  }

  // --- pools ----------------------------------------------------------------------------

  /** Toward zero, as a float is cast to an integer. */
  function Truncate(x: real): int {
    if x >= 0.0 then x.Floor else -((-x).Floor)
  }

  function ParseWidth(number: Json): Option<int> {
    match number
    case Num(Int(i)) => Some(i)
    case Num(Float(x, _)) => Some(Truncate(x))
    case Str(s) => ParseSigned(Trim(s), MAX_I64)
    case _ => None
  }

  /** Sizes by stage, after those in `acc`: a stage the row does not have is dropped, which
      `dropped` records. None when a size is refused. */
  function Widths(values: Fields, stages: seq<string>, floor: nat, limit: nat, acc: map<string, nat>, dropped: bool)
    : Option<(map<string, nat>, bool)>
    decreases |values|
  {
    if values == [] then Some((acc, dropped))
    else
      var key := Trim(values[0].key);
      if key !in stages then Widths(values[1..], stages, floor, limit, acc, true)
      else
        match ParseWidth(values[0].value)
        case None => None
        case Some(width) =>
          if width < floor || width > limit then None
          else Widths(values[1..], stages, floor, limit, acc[key := width], dropped)
  }

  /** The one spelling of a device, for each of those understood. */
  function ParseDevice(value: string): Option<string> {
    var v := Trim(value);
    if v == "auto" || v == "cpu" then Some(v)
    else if v == "gpu" || v == "cuda" then Some("gpu:0")
    else
      var n := if "gpu:" <= v then ParseUnsigned(v[4..], MAX_U32)
               else if "cuda:" <= v then ParseUnsigned(v[5..], MAX_U32)
               else None;
      match n
      case None => None
      case Some(i) => Some("gpu:" + Decimal(i))
  }

  predicate DeviceAllowed(spec: Engine, stage: string, device: string) {
    (stage == "detect" || spec.cpuOnly) ==> device == "auto" || device == "cpu"
  }

  function Devices(values: Fields, spec: Engine, acc: map<string, string>, dropped: bool)
    : Option<(map<string, string>, bool)>
    decreases |values|
  {
    if values == [] then Some((acc, dropped))
    else
      var key := Trim(values[0].key);
      if key !in spec.DeviceStageKeys() then Devices(values[1..], spec, acc, true)
      else if values[0].value == Null then Devices(values[1..], spec, acc, dropped)
      else
        match ParseDevice(ValueStr(Some(values[0].value)))
        case None => None
        case Some(device) =>
          if !DeviceAllowed(spec, key, device) then None
          else Devices(values[1..], spec, acc[key := device], dropped)
  }

  /** One of the two size tables of `pools`. */
  function WidthsSetting(v: Option<Json>, spec: Engine, floor: nat, limit: nat): Option<(map<string, nat>, bool)> {
    match v
    case None => Some((map[], false))
    case Some(Null) => Some((map[], false))
    case Some(Obj(values)) => Widths(values, spec.StageKeys(), floor, limit, map[], false)
    case _ => None
  }

  function DevicesSetting(v: Option<Json>, spec: Engine): Option<(map<string, string>, bool)> {
    match v
    case None => Some((map[], false))
    case Some(Null) => Some((map[], false))
    case Some(Obj(values)) => Devices(values, spec, map[], false)
    case _ => None
  }

  predicate OnlyPoolKeys(fields: Fields) {
    forall i :: 0 <= i < |fields| ==> fields[i].key in POOL_KEYS
  }

  /** A row's pools and whether a setting was dropped; none when refused. */
  function PoolsOf(raw: Option<Json>, spec: Engine): Option<(Pools, bool)> {
    match raw
    case None => Some((NO_POOLS, false))
    case Some(Null) => Some((NO_POOLS, false))
    case Some(Obj(fields)) =>
      if !OnlyPoolKeys(fields) then None
      else
        var workers := WidthsSetting(Get(fields, "stage_workers"), spec, 0, MAX_STAGE_WORKERS);
        var capacity := WidthsSetting(Get(fields, "queue_capacity"), spec, 1, MAX_QUEUE_CAPACITY);
        var device := DevicesSetting(Get(fields, "stage_device"), spec);
        if workers.None? || capacity.None? || device.None? then None
        else Some((Pools(workers.value.0, capacity.value.0, device.value.0),
                   workers.value.1 || capacity.value.1 || device.value.1))
    case _ => None
  }

  method ReadWidths(values: Fields, stages: seq<string>, floor: nat, limit: nat)
    returns (r: Option<(map<string, nat>, bool)>)
    ensures r == Widths(values, stages, floor, limit, map[], false)
  {
    var widths: map<string, nat>, dropped := map[], false;
    WholeTail(values);
    for i := 0 to |values|
      invariant Widths(values[i..], stages, floor, limit, widths, dropped)
             == Widths(values, stages, floor, limit, map[], false)
    {
      NextTail(values, i);
      var key := Trim(values[i].key);
      if key !in stages {
        dropped := true;
      } else {
        var width := ParseWidth(values[i].value);
        if width.None? || width.value < floor || width.value > limit {
          return None;
        }
        widths := widths[key := width.value];
      }
    }
    r := Some((widths, dropped));
  }

  method ReadDevices(values: Fields, spec: Engine) returns (r: Option<(map<string, string>, bool)>)
    ensures r == Devices(values, spec, map[], false)
  {
    var devices, dropped := map[], false;
    WholeTail(values);
    for i := 0 to |values|
      invariant Devices(values[i..], spec, devices, dropped) == Devices(values, spec, map[], false)
    {
      NextTail(values, i);
      var key := Trim(values[i].key);
      if key !in spec.DeviceStageKeys() {
        dropped := true;
      } else if values[i].value != Null {
        var device := ParseDevice(ValueStr(Some(values[i].value)));
        if device.None? || !DeviceAllowed(spec, key, device.value) {
          return None;
        }
        devices := devices[key := device.value];
      }
    }
    r := Some((devices, dropped));
  }

  method ReadWidthsSetting(v: Option<Json>, spec: Engine, floor: nat, limit: nat)
    returns (r: Option<(map<string, nat>, bool)>)
    ensures r == WidthsSetting(v, spec, floor, limit)
  {
    if v.None? || v.value == Null {
      r := Some((map[], false));
    } else if !v.value.Obj? {
      r := None;
    } else {
      r := ReadWidths(v.value.fields, spec.StageKeys(), floor, limit);
    }
  }

  method ReadDevicesSetting(v: Option<Json>, spec: Engine) returns (r: Option<(map<string, string>, bool)>)
    ensures r == DevicesSetting(v, spec)
  {
    if v.None? || v.value == Null {
      r := Some((map[], false));
    } else if !v.value.Obj? {
      r := None;
    } else {
      r := ReadDevices(v.value.fields, spec);
    }
  }

  method ParsePools(raw: Option<Json>, spec: Engine) returns (r: Option<(Pools, bool)>)
    ensures r == PoolsOf(raw, spec)
  {
    if raw.None? || raw.value == Null {
      return Some((NO_POOLS, false));
    }
    if !raw.value.Obj? || !OnlyPoolKeys(raw.value.fields) {
      return None;
    }
    var workers := ReadWidthsSetting(Get(raw.value.fields, "stage_workers"), spec, 0, MAX_STAGE_WORKERS);
    var capacity := ReadWidthsSetting(Get(raw.value.fields, "queue_capacity"), spec, 1, MAX_QUEUE_CAPACITY);
    var device := ReadDevicesSetting(Get(raw.value.fields, "stage_device"), spec);
    if workers.None? || capacity.None? || device.None? {
      return None;
    }
    r := Some((Pools(workers.value.0, capacity.value.0, device.value.0),
               workers.value.1 || capacity.value.1 || device.value.1));
  }

  // --- one row --------------------------------------------------------------------------

  /** A row and whether reading it migrated anything. */
  datatype Read = Read(row: Generation, migrated: bool)

  function NameSetting(row: Fields): string {
    ValueStr(Get(row, "name"))
  }

  /** What becomes of a row whose engine is gone. It never runs, but no later row can have its name. */
  function RetiredRow(index: nat, row: Fields, id: string, engine: string, names: seq<string>): Result<Read> {
    var name := if NameSetting(row) == "" then engine else NameSetting(row);
    if name in names then RowErr(index, "name")
    else
      var raw := if IsEnabledPrimary(row) then Put(row, RETIRED_FROM_PRIMARY, Bool(true)) else row;
      Ok(Read(Generation(id, name, engine, false, false, None, DEFAULT_PATCH_BUDGET, NO_POOLS,
                         DEFAULT_PRECISION_MODE, None, "", true, Some(raw)), true))
  }

  /** The detector of a row and whether it replaces a removed one. */
  function RowDetector(index: nat, row: Fields, spec: Engine): (r: Result<(Option<string>, bool)>)
    ensures r.Ok? ==> r.value.0 == if spec.detector.Some? then None else Some(DEFAULT_DETECTOR)
  {
    if spec.detector.Some? then Ok((None, false))
    else
      var wanted := ValueStr(Get(row, "detector"));
      if wanted in REMOVED_DETECTORS then Ok((Some(DEFAULT_DETECTOR), true))
      else if wanted == "" || wanted == DEFAULT_DETECTOR then Ok((Some(DEFAULT_DETECTOR), false))
      else RowErr(index, "detector")
  }

  function RowName(index: nat, row: Fields, engine: string, detector: Option<string>, names: seq<string>)
    : (r: Result<string>)
    ensures r.Ok? ==> NameAccepted(r.value) && r.value !in names
  {
    var given := NameSetting(row);
    if given != "" then
      if !NameAccepted(given) || given in names then RowErr(index, "name") else Ok(given)
    else
      match SeedName(engine, detector, names)
      case None => Err(Overflow)
      case Some(seeded) => Ok(seeded)
  }

  function RowBudget(index: nat, row: Fields): (r: Result<nat>)
    ensures r.Ok? ==> r.value in PATCH_BUDGETS
  {
    var v := Get(row, "patch_budget");
    if v.None? || v.value == Null then Ok(DEFAULT_PATCH_BUDGET)
    else
      match ParseUnsigned(ValueStr(v), MAX_U32)
      case None => RowErr(index, "patch_budget")
      case Some(p) => if p in PATCH_BUDGETS then Ok(p) else RowErr(index, "patch_budget")
  }

  /** The precision setting used to be among the pools. */
  function LegacyPrecision(row: Fields): string {
    match Get(row, "pools")
    case Some(Obj(fields)) => ValueStr(Get(fields, "precision"))
    case _ => ""
  }

  function RowPrecision(index: nat, row: Fields, spec: Engine): (r: Result<string>)
    ensures r.Ok? ==> r.value in PRECISION_MODES && (!spec.precision ==> r.value == DEFAULT_PRECISION_MODE)
  {
    var own := ValueStr(Get(row, "precision"));
    match PrecisionMode(if own == "" then LegacyPrecision(row) else own)
    case None => RowErr(index, "precision")
    case Some(mode) => Ok(if spec.precision then mode else DEFAULT_PRECISION_MODE)
  }

  function RowPick(row: Fields): (r: (Option<string>, string))
    ensures r.0.Some? ==> r.0.value in PRECISIONS
    ensures r.0.None? ==> r.1 == ""
  {
    var pick := ValueStr(Get(row, "precision_pick"));
    if pick in PRECISIONS then (Some(pick), ValueStr(Get(row, "precision_why"))) else (None, "")
  }

  /** A live row from its settings, or the first of them that was refused. */
  function Assembled(index: nat, id: string, engine: string, detector: Result<(Option<string>, bool)>,
                     name: Result<string>, charMap: bool, budget: Result<nat>, precision: Result<string>,
                     pick: (Option<string>, string), pools: Option<(Pools, bool)>, primary: bool, enabled: bool)
    : Result<Read>
  {
    var d :- detector;
    var n :- name;
    if charMap then RowErr(index, "char_map")
    else
      var b :- budget;
      var p :- precision;
      if pools.None? then RowErr(index, "pools")
      else
        Ok(Read(Generation(id, n, engine, primary, enabled, d.0, b, pools.value.0, p, pick.0, pick.1, false, None),
                d.1 || pools.value.1))
  }

  function LiveName(index: nat, row: Fields, spec: Engine, detector: Result<(Option<string>, bool)>, names: seq<string>)
    : Result<string>
  {
    var d :- detector;
    RowName(index, row, spec.id, d.0, names)
  }

  function LiveRow(index: nat, row: Fields, id: string, spec: Engine, names: seq<string>): Result<Read> {
    var detector := RowDetector(index, row, spec);
    Assembled(index, id, spec.id, detector, LiveName(index, row, spec, detector, names),
              Get(row, "char_map").Some?, RowBudget(index, row), RowPrecision(index, row, spec), RowPick(row),
              PoolsOf(Get(row, "pools"), spec), ValueBool(Get(row, "primary"), false),
              ValueBool(Get(row, "enabled"), true))
  }

  function EngineSetting(row: Fields): string {
    ValueStr(Get(row, "engine"))
  }

  /** Read one row under its id, given the names of the rows before it. */
  function RowOf(index: nat, row: Fields, id: string, names: seq<string>): Result<Read> {
    var engine := EngineSetting(row);
    if engine in REMOVED_ENGINES then RetiredRow(index, row, id, engine, names)
    else
      match FindEngine(engine)
      case None => RowErr(index, "engine")
      case Some(spec) => LiveRow(index, row, id, spec, names)
  }

  // --- the list -------------------------------------------------------------------------

  datatype Parsed = Parsed(rows: seq<Generation>, migrated: bool)

  function RowsOf(maps: seq<Fields>, ids: seq<string>): Result<Parsed>
    requires |ids| == |maps|
    decreases |maps|
  {
    if maps == [] then Ok(Parsed([], false))
    else
      var n := |maps| - 1;
      var before :- RowsOf(maps[..n], ids[..n]);
      var read :- RowOf(n, maps[n], ids[n], Names(before.rows));
      Ok(Parsed(before.rows + [read.row], before.migrated || read.migrated))
  }

  predicate HasRunnable(rows: seq<Generation>) {
    exists i :: 0 <= i < |rows| && rows[i].Runnable()
  }

  predicate IsPrimary(g: Generation) {
    g.Runnable() && g.primary
  }

  predicate HasPrimary(rows: seq<Generation>) {
    exists i :: 0 <= i < |rows| && IsPrimary(rows[i])
  }

  /** Retiring this row took the primary away. */
  predicate WasLost(g: Generation) {
    g.retired && g.raw.Some? && IsEnabledPrimary(g.raw.value)
  }

  predicate LostPrimary(rows: seq<Generation>) {
    exists i :: 0 <= i < |rows| && WasLost(rows[i])
  }

  /** The first runnable row on the default engine, or the number of rows. */
  function FindDefault(rows: seq<Generation>): (i: nat)
    ensures i <= |rows|
    ensures i < |rows| ==> rows[i].Runnable() && rows[i].engine == DEFAULT_ENGINE
    ensures forall j :: 0 <= j < i ==> !(rows[j].Runnable() && rows[j].engine == DEFAULT_ENGINE)
  {
    if rows == [] || (rows[0].Runnable() && rows[0].engine == DEFAULT_ENGINE) then 0 else 1 + FindDefault(rows[1..])
  }

  /** When retiring rows left no runnable primary: the first row on the default engine becomes it, or
      a default row is put in front. The id and name of that row are worked out either way. */
  function WithPrimary(p: Parsed): Result<Parsed> {
    if HasPrimary(p.rows) || !LostPrimary(p.rows) then Ok(p)
    else
      var id := MintId(Ids(p.rows));
      var name := SeedName(DEFAULT_ENGINE, None, Names(p.rows));
      if id.None? || name.None? then Err(Overflow)
      else
        var i := FindDefault(p.rows);
        if i < |p.rows| then Ok(Parsed(p.rows[i := p.rows[i].(primary := true)], true))
        else Ok(Parsed([DefaultRow(id.value, name.value)] + p.rows, true))
  }

  /** The positions of the runnable primary rows. */
  function Primaries(rows: seq<Generation>): (r: seq<nat>)
    ensures forall k :: 0 <= k < |r| ==> r[k] < |rows| && IsPrimary(rows[r[k]])
  {
    if rows == [] then []
    else
      var n := |rows| - 1;
      Primaries(rows[..n]) + if IsPrimary(rows[n]) then [n] else []
  }

  function FindId(rows: seq<Generation>, id: string): Option<nat>
    decreases |rows|
  {
    if rows == [] then None
    else
      match FindId(rows[..|rows| - 1], id)
      case Some(i) => Some(i)
      case None => if rows[|rows| - 1].id == id then Some(|rows| - 1) else None
  }

  /** Exactly one runnable row is primary, unless none runs. */
  function Validate(rows: seq<Generation>): Option<Error> {
    if !HasRunnable(rows) then None
    else
      var primaries := Primaries(rows);
      if primaries == [] then Some(At(None, Some("primary")))
      else if |primaries| > 1 then Some(At(FindId(rows, rows[primaries[1]].id), Some("primary")))
      else None
  }

  /** The JSON text of a string is longer than the string. */
  ghost predicate Shortens(decode: string -> Option<Json>) {
    forall text :: decode(text).Some? && decode(text).value.Str? ==> |decode(text).value.s| < |text|
  }

  /** How text is read as JSON. */
  type Decoder = decode: string -> Option<Json> | Shortens(decode) witness _ => None

  function CoerceText(text: string, decode: Decoder): Result<seq<Json>>
    decreases |text|, 1
  {
    var t := Trim(text);
    if t == "" then Ok([])
    else
      match decode(t)
      case None => ListErr()
      case Some(Str(s)) =>
        assert |t| <= |text| by { TrimShortens(text); }
        CoerceText(s, decode)
      case Some(v) => CoerceItems(v)
  }

  /** A list value that is not text. */
  function CoerceItems(value: Json): Result<seq<Json>> {
    match value
    case Null => Ok([])
    case Obj(_) => Ok([value])
    case Arr(items) => Ok(items)
    case _ => ListErr()
  }

  lemma TrimShortens(s: string)
    ensures |Trim(s)| <= |s|
  {
    TrimByEnds(s, IsSpace);
  }

  function CoerceRows(value: Json, decode: Decoder): Result<seq<Json>> {
    match value
    case Str(text) => CoerceText(text, decode)
    case _ => CoerceItems(value)
  }

  function MapsOf(items: seq<Json>): (r: Result<seq<Fields>>)
    ensures r.Ok? ==> |r.value| == |items|
  {
    if items == [] then Ok([])
    else
      var n := |items| - 1;
      var before :- MapsOf(items[..n]);
      match items[n]
      case Obj(fields) => Ok(before + [fields])
      case _ => Err(At(Some(n), None))
  }

  /** The rows of a list of mappings. */
  function ListOf(maps: seq<Fields>): Result<Parsed> {
    if maps == [] then Ok(Parsed([DefaultRow("g-1", DEFAULT_ENGINE)], false))
    else
      var ids :- IdsOf(maps);
      var read :- RowsOf(maps, ids);
      var p :- WithPrimary(read);
      match Validate(p.rows)
      case Some(e) => Err(e)
      case None => Ok(p)
  }

  /** The whole setting. */
  function GenerationList(value: Json, decode: Decoder): Result<Parsed> {
    var items :- CoerceRows(value, decode);
    var maps :- MapsOf(items);
    ListOf(maps)
  }

  // --- the list, in loops ---------------------------------------------------------------

  lemma {:induction false} RowsOfStop(maps: seq<Fields>, ids: seq<string>, n: nat)
    requires |ids| == |maps| && n <= |maps| && RowsOf(maps[..n], ids[..n]).Err?
    ensures RowsOf(maps, ids) == RowsOf(maps[..n], ids[..n])
    decreases |maps| - n
  {
    if n == |maps| {
      assert maps[..n] == maps && ids[..n] == ids;
    } else {
      assert maps[..n + 1][..n] == maps[..n] && ids[..n + 1][..n] == ids[..n];
      RowsOfStop(maps, ids, n + 1);
    }
  }

  lemma {:induction false} MapsOfStop(items: seq<Json>, n: nat)
    requires n <= |items| && MapsOf(items[..n]).Err?
    ensures MapsOf(items) == MapsOf(items[..n])
    decreases |items| - n
  {
    if n == |items| {
      assert items[..n] == items;
    } else {
      assert items[..n + 1][..n] == items[..n];
      MapsOfStop(items, n + 1);
    }
  }

  method EnsureRunnablePrimary(p: Parsed) returns (r: Result<Parsed>)
    ensures r == WithPrimary(p)
  {
    if HasPrimary(p.rows) || !LostPrimary(p.rows) {
      return Ok(p);
    }
    var id := MintGenerationId(Ids(p.rows));
    var name := SeedGenerationName(DEFAULT_ENGINE, None, Names(p.rows));
    if id.None? || name.None? {
      return Err(Overflow);
    }
    var rows := p.rows;
    var i := FindDefault(rows);
    if i < |rows| {
      rows := rows[i := rows[i].(primary := true)];
    } else {
      rows := [DefaultRow(id.value, name.value)] + rows;
    }
    r := Ok(Parsed(rows, true));
  }

  method ParseRows(maps: seq<Fields>, ids: seq<string>) returns (r: Result<Parsed>)
    requires |ids| == |maps|
    ensures r == RowsOf(maps, ids)
  {
    var out := Parsed([], false);
    for i := 0 to |maps|
      invariant RowsOf(maps[..i], ids[..i]) == Ok(out)
    {
      assert maps[..i + 1][..i] == maps[..i] && ids[..i + 1][..i] == ids[..i];
      var read := RowOf(i, maps[i], ids[i], Names(out.rows));
      if read.Err? {
        RowsOfStop(maps, ids, i + 1);
        return Err(read.error);
      }
      out := Parsed(out.rows + [read.value.row], out.migrated || read.value.migrated);
    }
    WholePrefix(maps);
    WholePrefix(ids);
    r := Ok(out);
  }

  method ParseGenerationList(value: Json, decode: Decoder) returns (r: Result<Parsed>)
    ensures r == GenerationList(value, decode)
  {
    var items := CoerceRows(value, decode);
    if items.Err? {
      return Err(items.error);
    }
    var maps: seq<Fields> := [];
    for i := 0 to |items.value|
      invariant MapsOf(items.value[..i]) == Ok(maps)
    {
      assert items.value[..i + 1][..i] == items.value[..i];
      if !items.value[i].Obj? {
        MapsOfStop(items.value, i + 1);
        return Err(At(Some(i), None));
      }
      maps := maps + [items.value[i].fields];
    }
    WholePrefix(items.value);
    if maps == [] {
      return Ok(Parsed([DefaultRow("g-1", DEFAULT_ENGINE)], false));
    }
    var ids := AssignIds(maps);
    if ids.Err? {
      return Err(ids.error);
    }
    var read := ParseRows(maps, ids.value);
    if read.Err? {
      return Err(read.error);
    }
    var out := EnsureRunnablePrimary(read.value);
    if out.Err? {
      return out;
    }
    var refusal := Validate(out.value.rows);
    r := if refusal.Some? then Err(refusal.value) else out;
  }
}
