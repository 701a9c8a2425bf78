/**
 When reading a list of generations reports a migration, and when that tells whether a save would change
 the list.

 `MigratesIff` says which lists are reported, in terms of the rows as they stand in the file. The report
 is documented to mean that a save would change the list; `ReportIsRightIff` says for which lists it does.
 It can be wrong either way (`SavedListIsReported`, `ChangedListIsNot`).
 */
module GenerationMigration {
  import opened Sequences
  import opened Text
  import opened JsonValues
  import opened Engines
  import opened Naming
  import opened Generations
  import opened GenerationRows
  import opened GenerationTheorems

  // --- which rows migrate ---------------------------------------------------------------

  /** The fields of an object under a key; none when there is no object. */
  function Table(fields: Fields, key: string): Fields {
    match Get(fields, key)
    case Some(Obj(values)) => values
    case _ => []
  }

  predicate HasStray(values: Fields, stages: seq<string>) {
    exists i :: 0 <= i < |values| && Trim(values[i].key) !in stages
  }

  /** A pool setting for a stage the engine does not have. */
  predicate StrayPools(row: Fields, spec: Engine) {
    var pools := Table(row, "pools");
    || HasStray(Table(pools, "stage_workers"), spec.StageKeys())
    || HasStray(Table(pools, "queue_capacity"), spec.StageKeys())
    || HasStray(Table(pools, "stage_device"), spec.DeviceStageKeys())
  }

  predicate OldDetector(row: Fields, spec: Engine) {
    spec.detector.None? && ValueStr(Get(row, "detector")) in REMOVED_DETECTORS
  }

  predicate IsRemoved(row: Fields) {
    EngineSetting(row) in REMOVED_ENGINES
  }

  predicate RowMigrates(row: Fields) {
    var spec := FindEngine(EngineSetting(row));
    IsRemoved(row) || (spec.Some? && (OldDetector(row, spec.value) || StrayPools(row, spec.value)))
  }

  predicate Migrates(maps: seq<Fields>) {
    exists i :: 0 <= i < |maps| && RowMigrates(maps[i])
  }

  predicate AnyRemoved(maps: seq<Fields>) {
    exists i :: 0 <= i < |maps| && IsRemoved(maps[i])
  }

  lemma StrayStep(values: Fields, stages: seq<string>)
    requires values != []
    ensures HasStray(values, stages) <==> Trim(values[0].key) !in stages || HasStray(values[1..], stages)
  {
    if i :| 0 <= i < |values| && Trim(values[i].key) !in stages {
      assert i > 0 ==> values[1..][i - 1] == values[i];
    }
    if i :| 0 <= i < |values| - 1 && Trim(values[1..][i].key) !in stages {
      assert values[i + 1] == values[1..][i];
    }
  }

  lemma {:induction false} WidthsDrop(values: Fields, stages: seq<string>, floor: nat, limit: nat,
                                      acc: map<string, nat>, dropped: bool)
    requires Widths(values, stages, floor, limit, acc, dropped).Some?
    ensures Widths(values, stages, floor, limit, acc, dropped).value.1 <==> dropped || HasStray(values, stages)
    decreases |values|
  {
    if values != [] {
      StrayStep(values, stages);
      var key, width := Trim(values[0].key), ParseWidth(values[0].value);
      if key !in stages {
        WidthsDrop(values[1..], stages, floor, limit, acc, true);
      } else {
        WidthsDrop(values[1..], stages, floor, limit, acc[key := width.value], dropped);
      }
    }
  }

  lemma {:induction false} DevicesDrop(values: Fields, spec: Engine, acc: map<string, string>, dropped: bool)
    requires Devices(values, spec, acc, dropped).Some?
    ensures Devices(values, spec, acc, dropped).value.1 <==> dropped || HasStray(values, spec.DeviceStageKeys())
    decreases |values|
  {
    if values != [] {
      StrayStep(values, spec.DeviceStageKeys());
      var key, device := Trim(values[0].key), ParseDevice(ValueStr(Some(values[0].value)));
      if key !in spec.DeviceStageKeys() {
        DevicesDrop(values[1..], spec, acc, true);
      } else if values[0].value == Null {
        DevicesDrop(values[1..], spec, acc, dropped);
      } else {
        DevicesDrop(values[1..], spec, acc[key := device.value], dropped);
      }
    }
  }

  lemma WidthsSettingDrops(fields: Fields, key: string, spec: Engine, floor: nat, limit: nat)
    requires WidthsSetting(Get(fields, key), spec, floor, limit).Some?
    ensures WidthsSetting(Get(fields, key), spec, floor, limit).value.1
      <==> HasStray(Table(fields, key), spec.StageKeys())
  {
    match Get(fields, key)
    case Some(Obj(values)) => WidthsDrop(values, spec.StageKeys(), floor, limit, map[], false);
    case _ =>
  }

  lemma DevicesSettingDrops(fields: Fields, key: string, spec: Engine)
    requires DevicesSetting(Get(fields, key), spec).Some?
    ensures DevicesSetting(Get(fields, key), spec).value.1 <==> HasStray(Table(fields, key), spec.DeviceStageKeys())
  {
    match Get(fields, key)
    case Some(Obj(values)) => DevicesDrop(values, spec, map[], false);
    case _ =>
  }

  lemma PoolsDrop(row: Fields, spec: Engine)
    requires PoolsOf(Get(row, "pools"), spec).Some?
    ensures PoolsOf(Get(row, "pools"), spec).value.1 <==> StrayPools(row, spec)
  {
    match Get(row, "pools")
    case Some(Obj(fields)) =>
      WidthsSettingDrops(fields, "stage_workers", spec, 0, MAX_STAGE_WORKERS);
      WidthsSettingDrops(fields, "queue_capacity", spec, 1, MAX_QUEUE_CAPACITY);
      DevicesSettingDrops(fields, "stage_device", spec);
    case _ =>
  }

  lemma AssembledMigrated(index: nat, id: string, engine: string, detector: Result<(Option<string>, bool)>,
                          name: Result<string>, charMap: bool, budget: Result<nat>, precision: Result<string>,
                          pick: (Option<string>, string), pools: Option<(Pools, bool)>, primary: bool, enabled: bool)
    requires Assembled(index, id, engine, detector, name, charMap, budget, precision, pick, pools, primary, enabled).Ok?
    ensures detector.Ok? && pools.Some?
    ensures Assembled(index, id, engine, detector, name, charMap, budget, precision, pick, pools, primary, enabled)
      .value.migrated == (detector.value.1 || pools.value.1)
  {
  }

  lemma LiveRowMigrated(index: nat, row: Fields, id: string, spec: Engine, names: seq<string>)
    requires LiveRow(index, row, id, spec, names).Ok?
    ensures LiveRow(index, row, id, spec, names).value.migrated <==> OldDetector(row, spec) || StrayPools(row, spec)
  {
    var detector := RowDetector(index, row, spec);
    AssembledMigrated(index, id, spec.id, detector, LiveName(index, row, spec, detector, names),
                      Get(row, "char_map").Some?, RowBudget(index, row), RowPrecision(index, row, spec), RowPick(row),
                      PoolsOf(Get(row, "pools"), spec), ValueBool(Get(row, "primary"), false),
                      ValueBool(Get(row, "enabled"), true));
    PoolsDrop(row, spec);
  }

  lemma RowMigratesIff(index: nat, row: Fields, id: string, names: seq<string>)
    requires RowOf(index, row, id, names).Ok?
    ensures RowOf(index, row, id, names).value.migrated <==> RowMigrates(row)
    ensures RowOf(index, row, id, names).value.row.retired <==> IsRemoved(row)
  {
    RowShape(index, row, id, names);
    if !IsRemoved(row) {
      LiveRowMigrated(index, row, id, FindEngine(EngineSetting(row)).value, names);
    }
  }

  // --- which lists are reported ---------------------------------------------------------

  lemma MigratesLast(maps: seq<Fields>, row: Fields)
    ensures Migrates(maps + [row]) <==> Migrates(maps) || RowMigrates(row)
  {
    var all := maps + [row];
    assert all[|maps|] == row;
    if i :| 0 <= i < |maps| && RowMigrates(maps[i]) {
      assert RowMigrates(all[i]);
    }
  }

  lemma {:induction false} RowsMigrateIff(maps: seq<Fields>, ids: seq<string>)
    requires |ids| == |maps| && RowsOf(maps, ids).Ok?
    ensures RowsOf(maps, ids).value.migrated <==> Migrates(maps)
    decreases |maps|
  {
    if maps != [] {
      var n := |maps| - 1;
      FrontAndLast(maps);
      FrontAndLast(ids);
      RowsMigrateIff(maps[..n], ids[..n]);
      var before, read := RowsOfLast(maps[..n], ids[..n], maps[n], ids[n]);
      RowMigratesIff(n, maps[n], ids[n], Names(before.rows));
      MigratesLast(maps[..n], maps[n]);
    }
  }

  /** A repair is only made when a row on a removed engine lost the primary. */
  lemma RepairedMigrates(maps: seq<Fields>, ids: seq<string>, p: Parsed)
    requires AllParse(maps, ids, p) && LostPrimary(p.rows)
    ensures p.migrated
  {
    ParsedIsRead(maps, ids, p);
    RowsMigrateIff(maps, ids);
    LostIsRemoved(maps);
  }

  lemma {:induction false} LostIsRemoved(maps: seq<Fields>)
    requires CountPrimaries(maps, true) > 0
    ensures Migrates(maps)
    decreases |maps|
  {
    var n := |maps| - 1;
    FrontAndLast(maps);
    MigratesLast(maps[..n], maps[n]);
    if !IsRemoved(maps[n]) {
      LostIsRemoved(maps[..n]);
    }
  }

  lemma AcceptedParses(maps: seq<Fields>) returns (ids: seq<string>, p: Parsed)
    requires maps != [] && ListOf(maps).Ok?
    ensures AllParse(maps, ids, p) && WithPrimary(p) == ListOf(maps)
  {
    ids := IdsOf(maps).value;
    p := RowsOf(maps, ids).value;
  }

  /** Exactly the lists with a row that migrates are reported: one on a removed engine, or with a removed
      detector on an engine that has none of its own, or with a pool setting for a stage it does not have. */
  lemma MigratesIff(maps: seq<Fields>)
    requires ListOf(maps).Ok?
    ensures ListOf(maps).value.migrated <==> Migrates(maps)
  {
    if maps != [] {
      var ids, p := AcceptedParses(maps);
      RowsMigrateIff(maps, ids);
      if LostPrimary(p.rows) {
        RepairedMigrates(maps, ids, p);
      }
    }
  }

  // --- when the report is right ---------------------------------------------------------

  /** A list as a save writes it. */
  ghost predicate WasSaved(maps: seq<Fields>) {
    exists rows :: Settled(rows) && Saved(rows) == maps
  }

  /** A save leaves alone exactly what a save wrote. */
  lemma UnchangedIff(maps: seq<Fields>)
    requires ListOf(maps).Ok?
    ensures Saved(ListOf(maps).value.rows) == maps <==> WasSaved(maps)
  {
    AcceptedIsSettled(maps);
    if rows :| Settled(rows) && Saved(rows) == maps {
      SettledReloads(rows);
      SavedAgain(rows);
    }
  }

  lemma SavedAgain(rows: seq<Generation>)
    requires AllShaped(rows)
    ensures Saved(Rereads(rows)) == Saved(rows)
  {
    forall i | 0 <= i < |rows| ensures Saved(Rereads(rows))[i] == Saved(rows)[i] {
      RereadIsSame(rows[i]);
    }
  }

  lemma SavedEngine(g: Generation)
    requires Shape(g)
    ensures IsRemoved(g.ToFields()) <==> g.retired
  {
    if g.retired {
      RetiredKeeps(g);
    } else {
      EngineReread(g);
    }
  }

  lemma SavedRemoved(rows: seq<Generation>)
    requires AllShaped(rows)
    ensures AnyRemoved(Saved(rows)) <==> AnyRetired(rows)
  {
    forall i | 0 <= i < |rows| ensures IsRemoved(Saved(rows)[i]) <==> rows[i].retired {
      SavedEngine(rows[i]);
    }
    if i :| 0 <= i < |rows| && rows[i].retired {
      assert IsRemoved(Saved(rows)[i]);
    }
  }

  /** A list that a save wrote migrates by its rows on removed engines alone. */
  lemma SavedMigratesIff(maps: seq<Fields>)
    requires WasSaved(maps)
    ensures ListOf(maps).Ok? && (Migrates(maps) <==> AnyRemoved(maps))
  {
    var rows :| Settled(rows) && Saved(rows) == maps;
    SettledReloads(rows);
    MigratesIff(maps);
    SavedRemoved(rows);
  }

  /** The report of an accepted list says whether a save would change it if and only if: for a list that a
      save wrote, no row is on a removed engine; for any other, some row migrates. */
  lemma ReportIsRightIff(maps: seq<Fields>)
    requires ListOf(maps).Ok?
    ensures var p := ListOf(maps).value;
      (p.migrated <==> Saved(p.rows) != maps) <==> if WasSaved(maps) then !AnyRemoved(maps) else Migrates(maps)
  {
    MigratesIff(maps);
    UnchangedIff(maps);
    if WasSaved(maps) {
      SavedMigratesIff(maps);
    }
  }

  // --- where it is wrong ----------------------------------------------------------------

  lemma RepairKeepsRetired(p: Parsed)
    requires AnyRetired(p.rows) && WithPrimary(p).Ok?
    ensures AnyRetired(WithPrimary(p).value.rows)
  {
    var i :| 0 <= i < |p.rows| && p.rows[i].retired;
    var after := WithPrimary(p).value.rows;
    if |after| == |p.rows| {
      assert after[i].retired;
    } else {
      assert after[i + 1] == p.rows[i];
    }
  }

  /** What a save writes for a 0.5 installation: loading it is reported, and a save changes nothing. */
  lemma SavedListIsReported()
    ensures ListOf([OldPrimary()]).Ok?
    ensures var maps := Saved(ListOf([OldPrimary()]).value.rows);
      ListOf(maps).Ok? && ListOf(maps).value.migrated && Saved(ListOf(maps).value.rows) == maps
  {
    OldPrimaryIsReplaced();
    OldPrimaryParses();
    AcceptedIsSettled([OldPrimary()]);
    var p := Parsed([OldPrimaryRow()], true);
    assert p.rows[0].retired;
    RepairKeepsRetired(p);
    var rows := ListOf([OldPrimary()]).value.rows;
    SettledReloads(rows);
    SavedAgain(rows);
  }

  /** A new row as short as it can be. */
  function ShortRow(): Fields {
    [Field("engine", Str("hayai-nova")), Field("primary", Bool(true))]
  }

  lemma ShortRowGets(key: string)
    ensures Get(ShortRow(), key) ==
      if key == "engine" then Some(Str("hayai-nova")) else if key == "primary" then Some(Bool(true)) else None
  {
    assert ShortRow()[1..] == [Field("primary", Bool(true))] && ShortRow()[1..][1..] == [];
    assert Get(ShortRow()[1..], key) == if key == "primary" then Some(Bool(true)) else None;
  }

  lemma ShortRowSettings()
    ensures var row := ShortRow();
      EngineSetting(row) == "hayai-nova" && RowId(row) == "" && NameSetting(row) == "" && IsEnabledPrimary(row)
  {
    ShortRowGets("engine");
    ShortRowGets("id");
    ShortRowGets("name");
    ShortRowGets("primary");
    ShortRowGets("enabled");
    TrimByKeeps("hayai-nova", IsSpace);
  }

  lemma ShortRowParts()
    ensures var row := ShortRow();
      && RowDetector(0, row, HAYAI_NOVA) == Ok((Some(DEFAULT_DETECTOR), false))
      && RowBudget(0, row).Ok? && RowPrecision(0, row, HAYAI_NOVA).Ok?
      && Get(row, "char_map") == None && Get(row, "pools") == None
  {
    ShortRowGets("detector");
    ShortRowGets("patch_budget");
    ShortRowGets("precision");
    ShortRowGets("char_map");
    ShortRowGets("pools");
    assert Trim("") == "";
  }

  lemma ShortRowName()
    ensures RowName(0, ShortRow(), "hayai-nova", Some(DEFAULT_DETECTOR), []).Ok?
  {
    ShortRowSettings();
    var k := SeedingSucceeds("hayai-nova", Some(DEFAULT_DETECTOR), []);
  }

  lemma ShortRowReads() returns (read: Read)
    ensures RowOf(0, ShortRow(), "g-1", []) == Ok(read)
  {
    ShortRowSettings();
    ShortRowParts();
    ShortRowName();
    read := LiveRow(0, ShortRow(), "g-1", HAYAI_NOVA, []).value;
    assert "hayai-nova" !in REMOVED_ENGINES;
  }

  lemma ShortRowStays()
    ensures !RowMigrates(ShortRow())
  {
    ShortRowSettings();
    ShortRowGets("detector");
    ShortRowGets("pools");
    assert "hayai-nova"[0] == 'h' && REMOVED_ENGINES[0][0] == 'm' && REMOVED_ENGINES[1][0] == 'm';
  }

  lemma NotSaved(rows: seq<Generation>)
    requires AllShaped(rows)
    ensures Saved(rows) != [ShortRow()]
  {
    if Saved(rows) == [ShortRow()] {
      assert Shape(rows[0]) && Saved(rows)[0] == ShortRow();
      IdShown(rows[0]);
      ShortRowGets("id");
    }
  }

  lemma ShortRowAccepted(read: Read)
    requires RowOf(0, ShortRow(), "g-1", []) == Ok(read)
    ensures ListOf([ShortRow()]).Ok?
  {
    ShortRowSettings();
    ShortRowStays();
    OneRowParses(ShortRow(), read);
    assert [ShortRow()][..0] == [];
    OnePrimaryStaysOne([ShortRow()], ["g-1"], Parsed([read.row], read.migrated));
  }

  /** It is accepted and not reported, but a save writes an id, a name and the rest into it. */
  lemma ChangedListIsNot()
    ensures var maps := [ShortRow()];
      ListOf(maps).Ok? && !ListOf(maps).value.migrated && Saved(ListOf(maps).value.rows) != maps
  {
    var maps := [ShortRow()];
    var read := ShortRowReads();
    ShortRowStays();
    ShortRowAccepted(read);
    MigratesIff(maps);
    AcceptedIsSettled(maps);
    NotSaved(ListOf(maps).value.rows);
  }
}
