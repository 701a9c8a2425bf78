/**
 What one row of the file says about the row that is read, and where a refusal points.
 */
module GenerationReading {
  import opened Sequences
  import opened Text
  import opened JsonValues
  import opened Engines
  import opened Naming
  import opened Generations
  import opened GenerationRows
  import opened GenerationTheorems

  // --- one row --------------------------------------------------------------------------

  /** The name in the file is the row's name. Without one a retired row is called after its engine, and a
      live one by the first free name that can be made for it. */
  lemma RowIsCalled(index: nat, row: Fields, id: string, names: seq<string>)
    requires RowOf(index, row, id, names).Ok?
    ensures var g := RowOf(index, row, id, names).value.row;
      && g.id == id && g.engine == EngineSetting(row) && g.name !in names
      && (NameSetting(row) != "" ==> g.name == NameSetting(row))
      && (NameSetting(row) == "" ==>
            if EngineSetting(row) in REMOVED_ENGINES then g.name == g.engine
            else Some(g.name) == SeedName(g.engine, g.detector, names))
  {
    if EngineSetting(row) !in REMOVED_ENGINES {
      var spec := FindEngine(EngineSetting(row)).value;
      LiveRowParts(index, row, id, spec, names, RowOf(index, row, id, names).value.row);
    }
  }

  /** A live row is primary and enabled as the file says. A retired one is neither, and keeps every field of
      the file; one that was the enabled primary is marked so. */
  lemma RowKeeps(index: nat, row: Fields, id: string, names: seq<string>, key: string)
    requires RowOf(index, row, id, names).Ok?
    ensures var g := RowOf(index, row, id, names).value.row;
      if EngineSetting(row) in REMOVED_ENGINES then
        && g.retired && !g.primary && !g.enabled && g.raw.Some?
        && Get(g.raw.value, key) ==
             if key == "retired_from_primary" && IsEnabledPrimary(row) then Some(Bool(true)) else Get(row, key)
      else
        && !g.retired && g.raw == None
        && g.primary == ValueBool(Get(row, "primary"), false) && g.enabled == ValueBool(Get(row, "enabled"), true)
  {
    if EngineSetting(row) in REMOVED_ENGINES {
      GetAfterPut(row, RETIRED_FROM_PRIMARY, Bool(true), key);
    } else {
      var spec, read := FindEngine(EngineSetting(row)).value, RowOf(index, row, id, names).value;
      LiveRowParts(index, row, id, spec, names, read.row);
      LiveFlags(index, row, id, spec, names);
    }
  }

  lemma LiveFlags(index: nat, row: Fields, id: string, spec: Engine, names: seq<string>)
    requires LiveRow(index, row, id, spec, names).Ok?
    ensures var g := LiveRow(index, row, id, spec, names).value.row;
      g.primary == ValueBool(Get(row, "primary"), false) && g.enabled == ValueBool(Get(row, "enabled"), true)
  {
    var detector := RowDetector(index, row, spec);
    AssembledParts(index, id, spec.id, detector, LiveName(index, row, spec, detector, names),
                   Get(row, "char_map").Some?, RowBudget(index, row), RowPrecision(index, row, spec), RowPick(row),
                   PoolsOf(Get(row, "pools"), spec), ValueBool(Get(row, "primary"), false),
                   ValueBool(Get(row, "enabled"), true), LiveRow(index, row, id, spec, names).value.row);
  }

  lemma CudaIsGpu(n: nat)
    requires n <= MAX_U32
    ensures ParseDevice("cuda:" + Decimal(n)) == Some("gpu:" + Decimal(n))
  {
    var d := "cuda:" + Decimal(n);
    assert d[0] == 'c' && d[1] == 'u' && d[|d| - 1] == Decimal(n)[|Decimal(n)| - 1];
    TrimByKeeps(d, IsSpace);
    assert d[5..] == Decimal(n) && |d| > 5;
    assert "auto"[0] == 'a' && "cpu"[1] == 'p' && "gpu"[0] == 'g' && "gpu:"[0] == 'g' && |"cuda"| == 4;
    ParseDecimal(n, MAX_U32);
  }

  /** The spellings of a device: `auto` and `cpu` stand for themselves, a GPU without a number is the first,
      and `cuda` is another word for it. */
  lemma DeviceSpellings(n: nat)
    requires n <= MAX_U32
    ensures ParseDevice("auto") == Some("auto") && ParseDevice("cpu") == Some("cpu")
    ensures ParseDevice("gpu") == Some("gpu:0") && ParseDevice("cuda") == Some("gpu:0")
    ensures ParseDevice("gpu:" + Decimal(n)) == Some("gpu:" + Decimal(n))
    ensures ParseDevice("cuda:" + Decimal(n)) == Some("gpu:" + Decimal(n))
  {
    TrimByKeeps("auto", IsSpace);
    TrimByKeeps("cpu", IsSpace);
    TrimByKeeps("gpu", IsSpace);
    TrimByKeeps("cuda", IsSpace);
    GpuNamed(n);
    CudaIsGpu(n);
  }

  /** A fraction is cut off toward zero. */
  lemma TruncateIsTowardZero(x: real)
    ensures var n := Truncate(x) as real;
      if x >= 0.0 then n <= x < n + 1.0 && n >= 0.0 else n - 1.0 < x <= n && n <= 0.0
  {
  }

  // --- refusals -------------------------------------------------------------------------

  function RowIds(rows: seq<Fields>): seq<string> {
    seq(|rows|, i requires 0 <= i < |rows| => RowId(rows[i]))
  }

  /** The id of row `i` cannot be used, or a row before it has it. */
  predicate BadId(rows: seq<Fields>, i: nat)
    requires i < |rows|
  {
    var id := RowId(rows[i]);
    id != "" && (!IsValidId(id) || id in RowIds(rows[..i]))
  }

  lemma RowIdsLast(rows: seq<Fields>, row: Fields)
    ensures RowIds(rows + [row]) == RowIds(rows) + [RowId(row)]
  {
  }

  lemma GivenLast(rows: seq<Fields>)
    requires rows != [] && GivenIds(rows).Ok?
    ensures var front, id := rows[..|rows| - 1], RowId(rows[|rows| - 1]);
      GivenIds(front).Ok? && GivenIds(rows).value == GivenIds(front).value + if id == "" then [] else [id]
  {
  }

  lemma {:induction false} GivenAreThose(rows: seq<Fields>, id: string)
    requires GivenIds(rows).Ok?
    ensures id in GivenIds(rows).value <==> id != "" && id in RowIds(rows)
    decreases |rows|
  {
    if rows != [] {
      var n := |rows| - 1;
      GivenLast(rows);
      GivenAreThose(rows[..n], id);
      FrontAndLast(rows);
      RowIdsLast(rows[..n], rows[n]);
    }
  }

  lemma BadIdBefore(rows: seq<Fields>, n: nat, i: nat)
    requires i < n <= |rows|
    ensures BadId(rows[..n], i) <==> BadId(rows, i)
  {
    assert rows[..n][..i] == rows[..i];
  }

  predicate FirstBadId(rows: seq<Fields>, i: nat) {
    i < |rows| && BadId(rows, i) && forall j :: 0 <= j < i ==> !BadId(rows, j)
  }

  /** Ids are refused exactly when one is bad; the refusal names the first such row and the field. */
  lemma {:induction false} IdsRefusedIff(rows: seq<Fields>)
    ensures GivenIds(rows).Ok? <==> forall i :: 0 <= i < |rows| ==> !BadId(rows, i)
    ensures GivenIds(rows).Err? ==> exists i :: FirstBadId(rows, i) && GivenIds(rows) == Err(At(Some(i), Some("id")))
    decreases |rows|
  {
    if rows != [] {
      var n := |rows| - 1;
      IdsRefusedIff(rows[..n]);
      forall i | 0 <= i < n ensures BadId(rows[..n], i) <==> BadId(rows, i) {
        BadIdBefore(rows, n, i);
      }
      if GivenIds(rows[..n]).Ok? {
        GivenAreThose(rows[..n], RowId(rows[n]));
        assert BadId(rows, n) ==> FirstBadId(rows, n);
      } else {
        var i :| FirstBadId(rows[..n], i) && GivenIds(rows[..n]) == Err(At(Some(i), Some("id")));
        assert BadId(rows, i);
        assert FirstBadId(rows, i);
      }
    }
  }

  /** Rows are read in order, and the first one that is refused gives the refusal. */
  lemma {:induction false} RowsRefusedFirst(maps: seq<Fields>, ids: seq<string>) returns (n: nat, before: Parsed)
    requires |ids| == |maps| && RowsOf(maps, ids).Err?
    ensures n < |maps| && RowsOf(maps[..n], ids[..n]) == Ok(before)
    ensures RowOf(n, maps[n], ids[n], Names(before.rows)) == Err(RowsOf(maps, ids).error)
    decreases |maps|
  {
    var last := |maps| - 1;
    if RowsOf(maps[..last], ids[..last]).Ok? {
      n, before := last, RowsOf(maps[..last], ids[..last]).value;
    } else {
      n, before := RowsRefusedFirst(maps[..last], ids[..last]);
      assert maps[..last][..n] == maps[..n] && ids[..last][..n] == ids[..n];
    }
  }

  predicate Increasing(p: seq<nat>) {
    forall k, l :: 0 <= k < l < |p| ==> p[k] < p[l]
  }

  lemma IncreasingPush(p: seq<nat>, n: nat)
    requires Increasing(p) && forall k :: 0 <= k < |p| ==> p[k] < n
    ensures Increasing(p + [n])
  {
  }

  /** The positions are increasing. */
  lemma {:induction false} PrimariesIncrease(rows: seq<Generation>)
    ensures Increasing(Primaries(rows))
    decreases |rows|
  {
    if rows != [] {
      var n := |rows| - 1;
      PrimariesIncrease(rows[..n]);
      IncreasingPush(Primaries(rows[..n]), n);
      assert Primaries(rows[..n]) + [] == Primaries(rows[..n]);
    }
  }

  /** They are all there are. */
  lemma {:induction false} PrimariesAre(rows: seq<Generation>, i: nat)
    requires i < |rows| && IsPrimary(rows[i])
    ensures i in Primaries(rows)
    decreases |rows|
  {
    var n := |rows| - 1;
    if i < n {
      assert rows[..n][i] == rows[i];
      PrimariesAre(rows[..n], i);
    }
  }

  lemma {:induction false} FoundById(rows: seq<Generation>, i: nat)
    requires Distinct(Ids(rows)) && i < |rows|
    ensures FindId(rows, rows[i].id) == Some(i)
    decreases |rows|
  {
    var n := |rows| - 1;
    FrontAndLast(rows);
    LabelsPush(rows[..n], rows[n]);
    DistinctPush(Ids(rows[..n]), rows[n].id);
    if i < n {
      FoundById(rows[..n], i);
    } else {
      NotFoundById(rows[..n], rows[n].id);
    }
  }

  lemma {:induction false} NotFoundById(rows: seq<Generation>, id: string)
    requires id !in Ids(rows)
    ensures FindId(rows, id) == None
    decreases |rows|
  {
    if rows != [] {
      var n := |rows| - 1;
      FrontAndLast(rows);
      LabelsPush(rows[..n], rows[n]);
      NotFoundById(rows[..n], id);
    }
  }

  /** Rows `i` and `j` are the first two primary ones. */
  predicate FirstTwo(rows: seq<Generation>, i: nat, j: nat) {
    && i < j < |rows| && IsPrimary(rows[i]) && IsPrimary(rows[j])
    && forall k :: 0 <= k < j && IsPrimary(rows[k]) ==> k == i
  }

  lemma FirstTwoAre(rows: seq<Generation>)
    requires |Primaries(rows)| > 1
    ensures FirstTwo(rows, Primaries(rows)[0], Primaries(rows)[1])
  {
    var p := Primaries(rows);
    PrimariesIncrease(rows);
    forall k | 0 <= k < p[1] && IsPrimary(rows[k]) ensures k == p[0] {
      PrimariesAre(rows, k);
      var m :| 0 <= m < |p| && p[m] == k;
      assert m == 0;
    }
  }

  /** Why a list of rows that run is refused: no primary at all, of no row; or the second of several. */
  lemma PrimaryRefusals(rows: seq<Generation>)
    requires Distinct(Ids(rows)) && HasRunnable(rows)
    ensures Primaries(rows) == [] ==> Validate(rows) == Some(At(None, Some("primary")))
    ensures |Primaries(rows)| > 1 ==>
      exists i, j :: FirstTwo(rows, i, j) && Validate(rows) == Some(At(Some(j), Some("primary")))
  {
    if |Primaries(rows)| > 1 {
      var j := Primaries(rows)[1];
      FirstTwoAre(rows);
      FoundById(rows, j);
      assert Validate(rows) == Some(At(Some(j), Some("primary")));
    }
  }
}
