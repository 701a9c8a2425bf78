/**
 Reading a printed row gives the row back. `Shape` is what every row read from a configuration looks
 like (`RowShape`); the round trips below need no more than that. A live row is read back as it was
 (`RowReread`), its pools among the rest (`PoolsReread`). A retired one keeps the fields it came with,
 so what comes back holds the printed form of them, and reads the same in every respect (`RetiredReread`,
 `RereadIsSame`).
 */
module GenerationRows {
  import opened Text
  import opened JsonValues
  import opened Engines
  import opened Naming
  import opened Generations

  // --- pools ----------------------------------------------------------------------------

  ghost predicate SizesOk(m: map<string, nat>, stages: seq<string>, floor: nat, limit: nat) {
    forall k :: k in m ==> k in stages && floor <= m[k] <= limit
  }

  predicate DeviceNamed(d: string) {
    Trim(d) == d && ParseDevice(d) == Some(d)
  }

  ghost predicate DevicesOk(m: map<string, string>, spec: Engine) {
    forall k :: k in m ==> k in spec.DeviceStageKeys() && DeviceNamed(m[k]) && DeviceAllowed(spec, k, m[k])
  }

  ghost predicate PoolsOk(p: Pools, spec: Engine) {
    && SizesOk(p.workers, spec.StageKeys(), 0, MAX_STAGE_WORKERS)
    && SizesOk(p.capacity, spec.StageKeys(), 1, MAX_QUEUE_CAPACITY)
    && DevicesOk(p.device, spec)
  }

  lemma {:induction false} WidthsShape(values: Fields, stages: seq<string>, floor: nat, limit: nat,
                                       acc: map<string, nat>, dropped: bool)
    requires SizesOk(acc, stages, floor, limit)
    ensures var r := Widths(values, stages, floor, limit, acc, dropped);
      r.Some? ==> SizesOk(r.value.0, stages, floor, limit)
    decreases |values|
  {
    if values != [] {
      var key, width := Trim(values[0].key), ParseWidth(values[0].value);
      if key !in stages {
        WidthsShape(values[1..], stages, floor, limit, acc, true);
      } else if width.Some? && floor <= width.value <= limit {
        WidthsShape(values[1..], stages, floor, limit, acc[key := width.value], dropped);
      }
    }
  }

  /** A device name that was accepted is accepted again, unchanged. */
  lemma DeviceStable(value: string)
    requires ParseDevice(value).Some?
    ensures DeviceNamed(ParseDevice(value).value)
  {
    var v, d := Trim(value), ParseDevice(value).value;
    if d == v {
      TrimTwice(value);
    } else if v == "gpu" || v == "cuda" {
      GpuNamed(0);
      assert "gpu:" + Decimal(0) == "gpu:0";
    } else {
      var n := if "gpu:" <= v then ParseUnsigned(v[4..], MAX_U32) else ParseUnsigned(v[5..], MAX_U32);
      GpuNamed(n.value);
    }
  }

  lemma GpuNamed(i: nat)
    requires i <= MAX_U32
    ensures DeviceNamed("gpu:" + Decimal(i))
  {
    var d := "gpu:" + Decimal(i);
    assert d[0] == 'g' && d[|d| - 1] == Decimal(i)[|Decimal(i)| - 1];
    TrimByKeeps(d, IsSpace);
    assert d[4..] == Decimal(i) && |d| > 4;
    assert "auto"[0] == 'a' && "cuda"[0] == 'c';
    ParseDecimal(i, MAX_U32);
  }

  lemma {:induction false} DevicesShape(values: Fields, spec: Engine, acc: map<string, string>, dropped: bool)
    requires DevicesOk(acc, spec)
    ensures var r := Devices(values, spec, acc, dropped); r.Some? ==> DevicesOk(r.value.0, spec)
    decreases |values|
  {
    if values != [] {
      var key, device := Trim(values[0].key), ParseDevice(ValueStr(Some(values[0].value)));
      if key !in spec.DeviceStageKeys() {
        DevicesShape(values[1..], spec, acc, true);
      } else if values[0].value == Null {
        DevicesShape(values[1..], spec, acc, dropped);
      } else if device.Some? && DeviceAllowed(spec, key, device.value) {
        DeviceStable(ValueStr(Some(values[0].value)));
        DevicesShape(values[1..], spec, acc[key := device.value], dropped);
      }
    }
  }

  lemma PoolsShape(raw: Option<Json>, spec: Engine)
    ensures PoolsOf(raw, spec).Some? ==> PoolsOk(PoolsOf(raw, spec).value.0, spec)
  {
    match raw
    case Some(Obj(fields)) =>
      match Get(fields, "stage_workers") {
        case Some(Obj(values)) => WidthsShape(values, spec.StageKeys(), 0, MAX_STAGE_WORKERS, map[], false);
        case _ =>
      }
      match Get(fields, "queue_capacity") {
        case Some(Obj(values)) => WidthsShape(values, spec.StageKeys(), 1, MAX_QUEUE_CAPACITY, map[], false);
        case _ =>
      }
      match Get(fields, "stage_device") {
        case Some(Obj(values)) => DevicesShape(values, spec, map[], false);
        case _ =>
      }
    case _ =>
  }

  /** The entries of a map under some keys. */
  function Under<V>(m: map<string, V>, keys: seq<string>): map<string, V> {
    map k | k in m && k in keys :: m[k]
  }

  predicate Trimmed(keys: seq<string>) {
    forall i :: 0 <= i < |keys| ==> Trim(keys[i]) == keys[i]
  }

  lemma UnderStep<V>(m: map<string, V>, keys: seq<string>, acc: map<string, V>)
    requires keys != []
    ensures (if keys[0] in m then acc[keys[0] := m[keys[0]]] else acc) + Under(m, keys[1..]) == acc + Under(m, keys)
  {
    assert forall k :: k in keys <==> k == keys[0] || k in keys[1..];
  }

  lemma WidthsTake(key: string, n: nat, rest: Fields, stages: seq<string>, floor: nat, limit: nat,
                   acc: map<string, nat>)
    requires key in stages && Trim(key) == key && floor <= n <= limit
    ensures Widths([Field(key, Num(Int(n)))] + rest, stages, floor, limit, acc, false)
         == Widths(rest, stages, floor, limit, acc[key := n], false)
  {
    assert ([Field(key, Num(Int(n)))] + rest)[1..] == rest;
  }

  lemma DevicesTake(key: string, d: string, rest: Fields, spec: Engine, acc: map<string, string>)
    requires key in spec.DeviceStageKeys() && Trim(key) == key && DeviceNamed(d) && DeviceAllowed(spec, key, d)
    ensures Devices([Field(key, Str(d))] + rest, spec, acc, false) == Devices(rest, spec, acc[key := d], false)
  {
    assert ([Field(key, Str(d))] + rest)[1..] == rest;
    assert ValueStr(Some(Str(d))) == d;
  }

  lemma {:induction false} WidthsReread(m: map<string, nat>, keys: seq<string>, stages: seq<string>,
                                        floor: nat, limit: nat, acc: map<string, nat>)
    requires SizesOk(m, stages, floor, limit) && Trimmed(keys)
    ensures Widths(WidthFields(m, keys), stages, floor, limit, acc, false) == Some((acc + Under(m, keys), false))
    decreases |keys|
  {
    if keys == [] {
      assert acc + Under(m, keys) == acc;
    } else {
      UnderStep(m, keys, acc);
      if keys[0] in m {
        WidthsTake(keys[0], m[keys[0]], WidthFields(m, keys[1..]), stages, floor, limit, acc);
        WidthsReread(m, keys[1..], stages, floor, limit, acc[keys[0] := m[keys[0]]]);
      } else {
        WidthsReread(m, keys[1..], stages, floor, limit, acc);
        assert WidthFields(m, keys) == WidthFields(m, keys[1..]);
      }
    }
  }

  lemma {:induction false} DevicesReread(m: map<string, string>, keys: seq<string>, spec: Engine,
                                         acc: map<string, string>)
    requires DevicesOk(m, spec) && Trimmed(keys)
    ensures Devices(DeviceFields(m, keys), spec, acc, false) == Some((acc + Under(m, keys), false))
    decreases |keys|
  {
    if keys == [] {
      assert acc + Under(m, keys) == acc;
    } else {
      UnderStep(m, keys, acc);
      if keys[0] in m {
        DevicesTake(keys[0], m[keys[0]], DeviceFields(m, keys[1..]), spec, acc);
        DevicesReread(m, keys[1..], spec, acc[keys[0] := m[keys[0]]]);
      } else {
        DevicesReread(m, keys[1..], spec, acc);
        assert DeviceFields(m, keys) == DeviceFields(m, keys[1..]);
      }
    }
  }

  lemma StagesTrimmed()
    ensures Trimmed(STAGE_ORDER)
  {
    forall i | 0 <= i < |STAGE_ORDER| ensures Trim(STAGE_ORDER[i]) == STAGE_ORDER[i] {
      TrimByKeeps(STAGE_ORDER[i], IsSpace);
    }
  }

  lemma AllUnder<V>(m: map<string, V>, keys: seq<string>)
    requires forall k :: k in m ==> k in keys
    ensures map[] + Under(m, keys) == m
  {
  }

  /** Read back under keys that cover the map. */
  lemma WidthsAllReread(m: map<string, nat>, keys: seq<string>, stages: seq<string>, floor: nat, limit: nat)
    requires SizesOk(m, stages, floor, limit) && Trimmed(keys) && forall k :: k in m ==> k in keys
    ensures Widths(WidthFields(m, keys), stages, floor, limit, map[], false) == Some((m, false))
  {
    WidthsReread(m, keys, stages, floor, limit, map[]);
    AllUnder(m, keys);
  }

  lemma DevicesAllReread(m: map<string, string>, keys: seq<string>, spec: Engine)
    requires DevicesOk(m, spec) && Trimmed(keys) && forall k :: k in m ==> k in keys
    ensures Devices(DeviceFields(m, keys), spec, map[], false) == Some((m, false))
  {
    DevicesReread(m, keys, spec, map[]);
    AllUnder(m, keys);
  }

  lemma StageInOrder(spec: Engine, stage: string)
    requires stage in spec.StageKeys() || stage in spec.DeviceStageKeys()
    ensures stage in STAGE_ORDER
  {
    assert STAGE_ORDER[0] == "detect" && STAGE_ORDER[1] == "engine"
           && STAGE_ORDER[2] == "layout" && STAGE_ORDER[3] == "post";
  }

  lemma StagesCover<V>(m: map<string, V>, spec: Engine)
    requires forall k :: k in m ==> k in spec.StageKeys() || k in spec.DeviceStageKeys()
    ensures forall k :: k in m ==> k in STAGE_ORDER
  {
    forall k | k in m ensures k in STAGE_ORDER {
      StageInOrder(spec, k);
    }
  }

  lemma WidthsSettingReread(m: map<string, nat>, spec: Engine, floor: nat, limit: nat)
    requires SizesOk(m, spec.StageKeys(), floor, limit)
    ensures WidthsSetting(Some(Obj(WidthFields(m, STAGE_ORDER))), spec, floor, limit) == Some((m, false))
  {
    StagesTrimmed();
    StagesCover(m, spec);
    WidthsAllReread(m, STAGE_ORDER, spec.StageKeys(), floor, limit);
  }

  lemma DevicesSettingReread(m: map<string, string>, spec: Engine)
    requires DevicesOk(m, spec)
    ensures DevicesSetting(Some(Obj(DeviceFields(m, STAGE_ORDER))), spec) == Some((m, false))
  {
    StagesTrimmed();
    StagesCover(m, spec);
    DevicesAllReread(m, STAGE_ORDER, spec);
  }

  lemma ThreeFields(a: Field, b: Field, c: Field, key: string)
    ensures Get([a, b, c], key) ==
      if key == a.key then Some(a.value) else if key == b.key then Some(b.value)
      else if key == c.key then Some(c.value) else None
  {
    assert [a, b, c][1..] == [b, c] && [b, c][1..] == [c] && [c][1..] == [];
    assert Get([c], key) == if key == c.key then Some(c.value) else None;
    assert Get([b, c], key) == if key == b.key then Some(b.value) else Get([c], key);
  }

  lemma PoolsJsonGets(p: Pools)
    ensures var fields := PoolsJson(p).fields;
      && OnlyPoolKeys(fields)
      && Get(fields, "stage_workers") == Some(Obj(WidthFields(p.workers, STAGE_ORDER)))
      && Get(fields, "queue_capacity") == Some(Obj(WidthFields(p.capacity, STAGE_ORDER)))
      && Get(fields, "stage_device") == Some(Obj(DeviceFields(p.device, STAGE_ORDER)))
      && Get(fields, "precision") == None
  {
    var fields := PoolsJson(p).fields;
    ThreeFields(fields[0], fields[1], fields[2], "stage_workers");
    ThreeFields(fields[0], fields[1], fields[2], "queue_capacity");
    ThreeFields(fields[0], fields[1], fields[2], "stage_device");
    ThreeFields(fields[0], fields[1], fields[2], "precision");
  }

  /** Pools read from a configuration survive printing and reading, and nothing is dropped. */
  lemma PoolsReread(p: Pools, spec: Engine)
    requires PoolsOk(p, spec)
    ensures PoolsOf(Some(PoolsJson(p)), spec) == Some((p, false))
  {
    WidthsSettingReread(p.workers, spec, 0, MAX_STAGE_WORKERS);
    WidthsSettingReread(p.capacity, spec, 1, MAX_QUEUE_CAPACITY);
    DevicesSettingReread(p.device, spec);
    PoolsJsonGets(p);
  }

  // --- shapes ---------------------------------------------------------------------------

  ghost predicate LiveShape(g: Generation) {
    && !g.retired && g.raw == None && FindEngine(g.engine).Some? && NameAccepted(g.name)
    && var spec := FindEngine(g.engine).value;
    && g.detector == (if spec.detector.Some? then None else Some(DEFAULT_DETECTOR))
    && g.patchBudget in PATCH_BUDGETS
    && g.precision in PRECISION_MODES && (!spec.precision ==> g.precision == DEFAULT_PRECISION_MODE)
    && (if g.pick.Some? then g.pick.value in PRECISIONS && Trim(g.why) == g.why else g.why == "")
    && PoolsOk(g.pools, spec)
  }

  /** The kept row remembers that it was the primary before its flag is cleared. */
  ghost predicate Remembers(raw: Fields) {
    IsEnabledPrimary(raw) ==> Get(raw, RETIRED_FROM_PRIMARY) == Some(Bool(true))
  }

  ghost predicate RetiredShape(g: Generation) {
    && g.retired && g.raw.Some? && g.engine == EngineSetting(g.raw.value) && g.engine in REMOVED_ENGINES
    && g.name != "" && Trim(g.name) == g.name && Remembers(g.raw.value)
    && g == Generation(g.id, g.name, g.engine, false, false, None, DEFAULT_PATCH_BUDGET, NO_POOLS,
                       DEFAULT_PRECISION_MODE, None, "", true, g.raw)
  }

  ghost predicate Shape(g: Generation) {
    LiveShape(g) || RetiredShape(g)
  }

  lemma RetiredName(row: Fields, engine: string)
    requires engine == EngineSetting(row) && engine in REMOVED_ENGINES
    ensures var name := if NameSetting(row) == "" then engine else NameSetting(row); name != "" && Trim(name) == name
  {
    ValueStrTwice(Get(row, "name"));
    ValueStrTwice(Get(row, "engine"));
  }

  lemma RetiredRowShape(index: nat, row: Fields, id: string, engine: string, names: seq<string>)
    requires engine == EngineSetting(row) && engine in REMOVED_ENGINES
    requires RetiredRow(index, row, id, engine, names).Ok?
    ensures var g := RetiredRow(index, row, id, engine, names).value.row;
      RetiredShape(g) && IsEnabledPrimary(g.raw.value) == IsEnabledPrimary(row)
  {
    MarkKeepsRest(row);
    RetiredName(row, engine);
  }

  lemma MarkKeepsRest(row: Fields)
    ensures var raw := Put(row, RETIRED_FROM_PRIMARY, Bool(true));
      && EngineSetting(raw) == EngineSetting(row) && IsEnabledPrimary(raw) == IsEnabledPrimary(row)
      && Get(raw, RETIRED_FROM_PRIMARY) == Some(Bool(true))
  {
    GetAfterPut(row, RETIRED_FROM_PRIMARY, Bool(true), "engine");
    GetAfterPut(row, RETIRED_FROM_PRIMARY, Bool(true), "primary");
    GetAfterPut(row, RETIRED_FROM_PRIMARY, Bool(true), "enabled");
    GetAfterPut(row, RETIRED_FROM_PRIMARY, Bool(true), RETIRED_FROM_PRIMARY);
  }

  lemma LiveShapeOf(g: Generation, spec: Engine)
    requires !g.retired && g.raw == None && FindEngine(g.engine) == Some(spec) && NameAccepted(g.name)
    requires g.detector == if spec.detector.Some? then None else Some(DEFAULT_DETECTOR)
    requires g.patchBudget in PATCH_BUDGETS
    requires g.precision in PRECISION_MODES && (!spec.precision ==> g.precision == DEFAULT_PRECISION_MODE)
    requires if g.pick.Some? then g.pick.value in PRECISIONS && Trim(g.why) == g.why else g.why == ""
    requires PoolsOk(g.pools, spec)
    ensures LiveShape(g)
  {
  }

  lemma PickShape(row: Fields)
    ensures var (pick, why) := RowPick(row);
      if pick.Some? then pick.value in PRECISIONS && Trim(why) == why else why == ""
  {
    ValueStrTwice(Get(row, "precision_why"));
  }

  lemma AssembledParts(index: nat, id: string, engine: string, detector: Result<(Option<string>, bool)>,
                       name: Result<string>, charMap: bool, budget: Result<nat>, precision: Result<string>,
                       pick: (Option<string>, string), pools: Option<(Pools, bool)>, primary: bool, enabled: bool,
                       g: Generation)
    requires var r := Assembled(index, id, engine, detector, name, charMap, budget, precision, pick, pools, primary,
                                enabled);
      r.Ok? && g == r.value.row
    ensures detector.Ok? && name.Ok? && budget.Ok? && precision.Ok? && pools.Some?
    ensures g == Generation(id, name.value, engine, primary, enabled, detector.value.0, budget.value, pools.value.0,
                            precision.value, pick.0, pick.1, false, None)
  {
  }

  /** Where each field of a live row comes from. */
  lemma LiveRowParts(index: nat, row: Fields, id: string, spec: Engine, names: seq<string>, g: Generation)
    requires LiveRow(index, row, id, spec, names).Ok? && g == LiveRow(index, row, id, spec, names).value.row
    ensures !g.retired && g.raw == None && g.id == id && g.engine == spec.id
    ensures RowDetector(index, row, spec).Ok? && g.detector == RowDetector(index, row, spec).value.0
    ensures RowName(index, row, spec.id, g.detector, names) == Ok(g.name)
    ensures RowBudget(index, row) == Ok(g.patchBudget)
    ensures RowPrecision(index, row, spec) == Ok(g.precision)
    ensures RowPick(row) == (g.pick, g.why)
    ensures PoolsOf(Get(row, "pools"), spec).Some? && g.pools == PoolsOf(Get(row, "pools"), spec).value.0
    ensures (IsPrimary(g) <==> IsEnabledPrimary(row)) && (g.Runnable() <==> ValueBool(Get(row, "enabled"), true))
  {
    var detector := RowDetector(index, row, spec);
    AssembledParts(index, id, spec.id, detector, LiveName(index, row, spec, detector, names),
                   Get(row, "char_map").Some?, RowBudget(index, row), RowPrecision(index, row, spec), RowPick(row),
                   PoolsOf(Get(row, "pools"), spec), ValueBool(Get(row, "primary"), false),
                   ValueBool(Get(row, "enabled"), true), g);
  }

  lemma LiveRowShape(index: nat, row: Fields, id: string, spec: Engine, names: seq<string>, g: Generation)
    requires FindEngine(spec.id) == Some(spec)
    requires LiveRow(index, row, id, spec, names).Ok? && g == LiveRow(index, row, id, spec, names).value.row
    ensures LiveShape(g) && g.id == id && g.name !in names && (IsPrimary(g) <==> IsEnabledPrimary(row))
    ensures g.Runnable() <==> ValueBool(Get(row, "enabled"), true)
  {
    LiveRowParts(index, row, id, spec, names, g);
    LivePartsShape(index, row, spec, names, g);
  }

  lemma LivePartsShape(index: nat, row: Fields, spec: Engine, names: seq<string>, g: Generation)
    requires FindEngine(spec.id) == Some(spec)
    requires !g.retired && g.raw == None && g.engine == spec.id
    requires RowDetector(index, row, spec).Ok? && g.detector == RowDetector(index, row, spec).value.0
    requires RowName(index, row, spec.id, g.detector, names) == Ok(g.name)
    requires RowBudget(index, row) == Ok(g.patchBudget)
    requires RowPrecision(index, row, spec) == Ok(g.precision)
    requires RowPick(row) == (g.pick, g.why)
    requires PoolsOf(Get(row, "pools"), spec).Some? && g.pools == PoolsOf(Get(row, "pools"), spec).value.0
    ensures LiveShape(g) && g.name !in names
  {
    PickShape(row);
    PoolsShape(Get(row, "pools"), spec);
    LiveShapeOf(g, spec);
  }

  /** Every row that is read has a shape, keeps the id it was read under and takes a new name; only a
      row on a live engine can be primary, and it is exactly when the raw row was. */
  lemma RowShape(index: nat, row: Fields, id: string, names: seq<string>)
    requires RowOf(index, row, id, names).Ok?
    ensures var read := RowOf(index, row, id, names).value; var g := read.row;
      && Shape(g) && g.id == id && g.name !in names
      && (g.retired <==> EngineSetting(row) in REMOVED_ENGINES)
      && (g.retired ==> read.migrated && !IsPrimary(g))
      && (IsPrimary(g) <==> IsEnabledPrimary(row) && !g.retired)
      && (WasLost(g) <==> IsEnabledPrimary(row) && g.retired)
      && (g.Runnable() <==> ValueBool(Get(row, "enabled"), true) && !g.retired)
  {
    var engine := EngineSetting(row);
    if engine in REMOVED_ENGINES {
      RetiredRowShape(index, row, id, engine, names);
    } else {
      LiveRowShape(index, row, id, FindEngine(engine).value, names, RowOf(index, row, id, names).value.row);
    }
  }

  lemma DefaultRowShape(id: string, name: string)
    requires NameAccepted(name)
    ensures LiveShape(DefaultRow(id, name)) && IsPrimary(DefaultRow(id, name))
  {
  }

  // --- a row without settings -----------------------------------------------------------

  predicate Absent(row: Fields, key: string) {
    Get(row, key) == None || Get(row, key) == Some(Null)
  }

  /** A setting that a row does not have: the detector that is left, 512 patches, the mode
      `auto-accuracy`, no sizes and devices, running, and not the primary. */
  lemma AbsentSettings(index: nat, row: Fields, spec: Engine)
    ensures Absent(row, "detector") ==>
      RowDetector(index, row, spec) == Ok((if spec.detector.Some? then None else Some("ppocr-manga"), false))
    ensures Absent(row, "patch_budget") ==> RowBudget(index, row) == Ok(512)
    ensures Absent(row, "pools") ==> PoolsOf(Get(row, "pools"), spec) == Some((NO_POOLS, false))
    ensures Absent(row, "precision") && Absent(row, "pools") ==> RowPrecision(index, row, spec) == Ok("auto-accuracy")
    ensures Absent(row, "enabled") ==> ValueBool(Get(row, "enabled"), true)
    ensures Absent(row, "primary") ==> !ValueBool(Get(row, "primary"), false)
  {
    assert Trim("") == "";
  }

  // --- a retired row again --------------------------------------------------------------

  /** A row after saving and loading: what a retired one keeps is now its saved form. */
  function Reread(g: Generation): Generation {
    if g.retired then g.(raw := Some(g.ToFields())) else g
  }

  lemma RetiredGets(g: Generation, key: string)
    requires g.retired && g.raw.Some?
    ensures Get(g.ToFields(), key) ==
      if key == "enabled" || key == "primary" then Some(Bool(false))
      else if key == "name" then Some(Str(g.name))
      else if key == "id" then Some(Str(g.id))
      else Get(g.raw.value, key)
  {
    var a := Put(g.raw.value, "id", Str(g.id));
    var b := Put(a, "name", Str(g.name));
    var c := Put(b, "primary", Bool(false));
    GetAfterPut(g.raw.value, "id", Str(g.id), key);
    GetAfterPut(a, "name", Str(g.name), key);
    GetAfterPut(b, "primary", Bool(false), key);
    GetAfterPut(c, "enabled", Bool(false), key);
  }

  lemma RetiredKeeps(g: Generation)
    requires RetiredShape(g)
    ensures var raw := g.ToFields();
      && EngineSetting(raw) == g.engine && NameSetting(raw) == g.name && !IsEnabledPrimary(raw)
      && Get(raw, RETIRED_FROM_PRIMARY) == Get(g.raw.value, RETIRED_FROM_PRIMARY)
  {
    RetiredGets(g, "engine");
    RetiredGets(g, "name");
    RetiredGets(g, "primary");
    RetiredGets(g, RETIRED_FROM_PRIMARY);
  }

  lemma RetiredReread(index: nat, g: Generation, names: seq<string>)
    requires RetiredShape(g) && g.name !in names
    ensures RowOf(index, g.ToFields(), g.id, names) == Ok(Read(Reread(g), true))
  {
    RetiredKeeps(g);
  }

  /** Saving and loading changes nothing a reader of the row can see. */
  lemma RereadIsSame(g: Generation)
    requires Shape(g)
    ensures Shape(Reread(g)) && Reread(g).ToFields() == g.ToFields()
    ensures Reread(g).WasPrimary() == g.WasPrimary() && Reread(g).FilesSuffix() == g.FilesSuffix()
    ensures !WasLost(Reread(g))
  {
    if g.retired {
      RetiredKeeps(g);
      var fields := g.ToFields();
      RetiredGets(g, "id");
      RetiredGets(g, "name");
      RetiredGets(g, "primary");
      RetiredGets(g, "enabled");
      PutAgain(fields, "id", Str(g.id));
      PutAgain(fields, "name", Str(g.name));
      PutAgain(fields, "primary", Bool(false));
      PutAgain(fields, "enabled", Bool(false));
    }
  }

  // --- a live row again -----------------------------------------------------------------

  /** What a printed live row holds under a key. */
  function Shown(g: Generation, key: string): Option<Json> {
    if key == "precision_why" && g.pick.Some? then Some(Str(g.why))
    else if key == "precision_pick" && g.pick.Some? then Some(Str(g.pick.value))
    else if key == "pools" then Some(PoolsJson(g.pools))
    else if key == "precision" && g.precision != DEFAULT_PRECISION_MODE then Some(Str(g.precision))
    else if key == "patch_budget" then Some(Num(Int(g.patchBudget)))
    else if key == "detector" && g.detector.Some? then Some(Str(g.detector.value))
    else if key == "engine" then Some(Str(g.engine))
    else if key == "enabled" then Some(Bool(g.enabled))
    else if key == "primary" then Some(Bool(g.primary))
    else if key == "name" then Some(Str(g.name))
    else if key == "id" then Some(Str(g.id))
    else None
  }

  lemma StartShows(g: Generation, key: string) returns (start: Fields)
    ensures start == Put(Put(Put(Put(Put([], "id", Str(g.id)), "name", Str(g.name)), "primary", Bool(g.primary)),
                             "enabled", Bool(g.enabled)), "engine", Str(g.engine))
    ensures Get(start, key) ==
      if key == "engine" then Some(Str(g.engine))
      else if key == "enabled" then Some(Bool(g.enabled))
      else if key == "primary" then Some(Bool(g.primary))
      else if key == "name" then Some(Str(g.name))
      else if key == "id" then Some(Str(g.id))
      else None
  {
    var a := Put([], "id", Str(g.id));
    var b := Put(a, "name", Str(g.name));
    var c := Put(b, "primary", Bool(g.primary));
    var d := Put(c, "enabled", Bool(g.enabled));
    start := Put(d, "engine", Str(g.engine));
    GetAfterPut([], "id", Str(g.id), key);
    GetAfterPut(a, "name", Str(g.name), key);
    GetAfterPut(b, "primary", Bool(g.primary), key);
    GetAfterPut(c, "enabled", Bool(g.enabled), key);
    GetAfterPut(d, "engine", Str(g.engine), key);
  }

  lemma PrintedShows(g: Generation, key: string)
    requires !g.retired
    ensures Get(g.ToFields(), key) == Shown(g, key)
  {
    var a := StartShows(g, key);
    var b := a;
    if g.detector.Some? {
      b := Put(a, "detector", Str(g.detector.value));
      GetAfterPut(a, "detector", Str(g.detector.value), key);
    }
    var c := Put(b, "patch_budget", Num(Int(g.patchBudget)));
    GetAfterPut(b, "patch_budget", Num(Int(g.patchBudget)), key);
    var d := c;
    if g.precision != DEFAULT_PRECISION_MODE {
      d := Put(c, "precision", Str(g.precision));
      GetAfterPut(c, "precision", Str(g.precision), key);
    }
    var e := Put(d, "pools", PoolsJson(g.pools));
    GetAfterPut(d, "pools", PoolsJson(g.pools), key);
    if g.pick.Some? {
      var f := Put(e, "precision_pick", Str(g.pick.value));
      GetAfterPut(e, "precision_pick", Str(g.pick.value), key);
      GetAfterPut(f, "precision_why", Str(g.why), key);
      assert g.ToFields() == Put(f, "precision_why", Str(g.why));
    } else {
      assert g.ToFields() == e;
    }
  }

  lemma NameTrimmed(s: string)
    requires s != "" && AllNameChars(s)
    ensures Trim(s) == s
  {
    TrimByKeeps(s, IsSpace);
  }

  lemma EngineReread(g: Generation)
    requires !g.retired && FindEngine(g.engine).Some?
    ensures EngineSetting(g.ToFields()) == g.engine && g.engine !in REMOVED_ENGINES
  {
    PrintedShows(g, "engine");
    TrimByKeeps(g.engine, IsSpace);
    assert g.engine[0] in ['h', 'p'];
  }

  lemma DefaultDetectorKnown()
    ensures Trim(DEFAULT_DETECTOR) == DEFAULT_DETECTOR && DEFAULT_DETECTOR !in REMOVED_DETECTORS
  {
    TrimByKeeps(DEFAULT_DETECTOR, IsSpace);
    assert DEFAULT_DETECTOR[0] == 'p';
  }

  lemma DetectorReread(index: nat, g: Generation)
    requires LiveShape(g)
    ensures RowDetector(index, g.ToFields(), FindEngine(g.engine).value) == Ok((g.detector, false))
  {
    var spec := FindEngine(g.engine).value;
    if spec.detector.None? {
      PrintedShows(g, "detector");
      DefaultDetectorKnown();
      DetectorFrom(index, g.ToFields(), spec);
    }
  }

  lemma DetectorFrom(index: nat, row: Fields, spec: Engine)
    requires spec.detector.None? && ValueStr(Get(row, "detector")) == DEFAULT_DETECTOR
    requires DEFAULT_DETECTOR !in REMOVED_DETECTORS
    ensures RowDetector(index, row, spec) == Ok((Some(DEFAULT_DETECTOR), false))
  {
  }

  lemma NameReread(index: nat, g: Generation, names: seq<string>)
    requires !g.retired && NameAccepted(g.name) && g.name !in names
    ensures RowName(index, g.ToFields(), g.engine, g.detector, names) == Ok(g.name)
  {
    PrintedShows(g, "name");
    NameTrimmed(g.name);
  }

  lemma NumeralSetting(n: nat)
    ensures ValueStr(Some(Num(Int(n)))) == Decimal(n)
  {
    var text := Decimal(n);
    assert IsDigit(text[0]) && IsDigit(text[|text| - 1]);
    TrimByKeeps(text, IsQuote);
    TrimByKeeps(text, IsSpace);
  }

  lemma BudgetReread(index: nat, g: Generation)
    requires !g.retired && g.patchBudget in PATCH_BUDGETS
    ensures RowBudget(index, g.ToFields()) == Ok(g.patchBudget)
  {
    PrintedShows(g, "patch_budget");
    NumeralSetting(g.patchBudget);
    ParseDecimal(g.patchBudget, MAX_U32);
  }

  lemma ModeReread(mode: string)
    requires mode in PRECISION_MODES
    ensures Trim(mode) == mode && PrecisionMode(mode) == Some(mode) && mode != ""
  {
    TrimByKeeps(mode, IsSpace);
  }

  lemma PrecisionShown(g: Generation)
    requires !g.retired && g.precision in PRECISION_MODES
    ensures ValueStr(Get(g.ToFields(), "precision")) ==
      if g.precision == DEFAULT_PRECISION_MODE then "" else g.precision
    ensures LegacyPrecision(g.ToFields()) == ""
  {
    PrintedShows(g, "precision");
    PrintedShows(g, "pools");
    PoolsJsonGets(g.pools);
    ModeReread(g.precision);
  }

  lemma PrecisionReread(index: nat, g: Generation)
    requires LiveShape(g)
    ensures RowPrecision(index, g.ToFields(), FindEngine(g.engine).value) == Ok(g.precision)
  {
    PrecisionShown(g);
    ModeReread(g.precision);
    PrecisionFrom(index, g.ToFields(), FindEngine(g.engine).value, g.precision);
  }

  lemma PrecisionFrom(index: nat, row: Fields, spec: Engine, mode: string)
    requires ValueStr(Get(row, "precision")) == if mode == DEFAULT_PRECISION_MODE then "" else mode
    requires LegacyPrecision(row) == "" && PrecisionMode(mode) == Some(mode) && mode != ""
    requires !spec.precision ==> mode == DEFAULT_PRECISION_MODE
    ensures RowPrecision(index, row, spec) == Ok(mode)
  {
    assert Trim("") == "";
  }

  lemma PickTrimmed(pick: string)
    requires pick in PRECISIONS
    ensures Trim(pick) == pick
  {
    TrimByKeeps(pick, IsSpace);
  }

  lemma PickFrom(row: Fields, pick: Option<string>, why: string)
    requires ValueStr(Get(row, "precision_pick")) == if pick.Some? then pick.value else ""
    requires pick.Some? ==> ValueStr(Get(row, "precision_why")) == why
    requires if pick.Some? then pick.value in PRECISIONS else why == ""
    ensures RowPick(row) == (pick, why)
  {
  }

  lemma PickReread(g: Generation)
    requires !g.retired
    requires if g.pick.Some? then g.pick.value in PRECISIONS && Trim(g.why) == g.why else g.why == ""
    ensures RowPick(g.ToFields()) == (g.pick, g.why)
  {
    PrintedShows(g, "precision_pick");
    PrintedShows(g, "precision_why");
    if g.pick.Some? {
      PickTrimmed(g.pick.value);
    }
    PickFrom(g.ToFields(), g.pick, g.why);
  }

  lemma FlagsReread(g: Generation)
    requires !g.retired
    ensures ValueBool(Get(g.ToFields(), "primary"), false) == g.primary
    ensures ValueBool(Get(g.ToFields(), "enabled"), true) == g.enabled
    ensures Get(g.ToFields(), "char_map") == None && Get(g.ToFields(), "pools") == Some(PoolsJson(g.pools))
  {
    PrintedShows(g, "primary");
    PrintedShows(g, "enabled");
    PrintedShows(g, "char_map");
    PrintedShows(g, "pools");
  }

  lemma LiveReread(index: nat, g: Generation, names: seq<string>)
    requires LiveShape(g) && g.name !in names
    ensures RowOf(index, g.ToFields(), g.id, names) == Ok(Read(g, false))
  {
    var row, spec := g.ToFields(), FindEngine(g.engine).value;
    EngineReread(g);
    LivePartsReread(index, g, row, spec, names);
    assert RowOf(index, row, g.id, names) == LiveRow(index, row, g.id, spec, names);
  }

  lemma AssembledAgain(index: nat, g: Generation, detector: Result<(Option<string>, bool)>, name: Result<string>,
                       budget: Result<nat>, precision: Result<string>, pools: Option<(Pools, bool)>)
    requires !g.retired && g.raw == None
    requires detector == Ok((g.detector, false)) && name == Ok(g.name) && budget == Ok(g.patchBudget)
    requires precision == Ok(g.precision) && pools == Some((g.pools, false))
    ensures Assembled(index, g.id, g.engine, detector, name, false, budget, precision, (g.pick, g.why), pools,
                      g.primary, g.enabled) == Ok(Read(g, false))
  {
  }

  lemma LivePartsReread(index: nat, g: Generation, row: Fields, spec: Engine, names: seq<string>)
    requires LiveShape(g) && g.name !in names && row == g.ToFields() && FindEngine(g.engine) == Some(spec)
    ensures LiveRow(index, row, g.id, spec, names) == Ok(Read(g, false))
  {
    DetectorReread(index, g);
    NameReread(index, g, names);
    BudgetReread(index, g);
    PrecisionReread(index, g);
    PickReread(g);
    FlagsReread(g);
    PoolsReread(g.pools, spec);
    var detector := RowDetector(index, row, spec);
    AssembledAgain(index, g, detector, LiveName(index, row, spec, detector, names), RowBudget(index, row),
                   RowPrecision(index, row, spec), PoolsOf(Get(row, "pools"), spec));
  }

  /** One row, saved and loaded, is the row again; only a retired row is migrated again. */
  lemma RowReread(index: nat, g: Generation, names: seq<string>)
    requires Shape(g) && g.name !in names
    ensures RowOf(index, g.ToFields(), g.id, names) == Ok(Read(Reread(g), g.retired))
  {
    if g.retired {
      RetiredReread(index, g, names);
    } else {
      LiveReread(index, g, names);
    }
  }
}
