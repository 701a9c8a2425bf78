/**
 What holds of every list of generations, whatever the configuration file says.

 Ids: each row keeps the id it came with, and those minted for the others are new (`IdsAreDistinct`);
 minting fails only past the last number (`MintedIff`). The primary row: `AcceptedIff` says which
 lists are accepted, counted on the raw rows, and `RepairIsSound` that retiring a removed engine
 leaves a primary. Accepted lists are `Settled`: distinct ids, distinct names, one runnable primary.
 Files: no two runnable rows write the same sidecar (`SidecarsAreDistinct`). Saving and loading an
 accepted list changes nothing a second time (`SaveAndLoad`).
 */
module GenerationTheorems {
  import opened Sequences
  import opened Text
  import opened JsonValues
  import opened Engines
  import opened Naming
  import opened Generations
  import opened GenerationRows

  // --- ids ------------------------------------------------------------------------------

  ghost predicate ValidIds(ids: seq<string>) {
    forall i :: 0 <= i < |ids| ==> IsValidId(ids[i])
  }

  /** The rows' own ids are among those in use, and no two rows come with the same one. */
  ghost predicate OwnIds(rows: seq<Fields>, taken: seq<string>) {
    && (forall i :: 0 <= i < |rows| ==> RowId(rows[i]) == "" || RowId(rows[i]) in taken)
    && (forall i, j :: 0 <= i < j < |rows| ==> RowId(rows[i]) == "" || RowId(rows[i]) != RowId(rows[j]))
  }

  lemma OwnIdsPush(rows: seq<Fields>, row: Fields, taken: seq<string>)
    requires OwnIds(rows, taken) && RowId(row) !in taken
    ensures OwnIds(rows + [row], if RowId(row) == "" then taken else taken + [RowId(row)])
  {
    var after := rows + [row];
    assert forall i :: 0 <= i < |rows| ==> after[i] == rows[i];
  }

  lemma NoEmptyId(taken: seq<string>)
    requires ValidIds(taken)
    ensures "" !in taken
  {
  }

  lemma {:induction false} GivenIdsAreDistinct(rows: seq<Fields>)
    requires GivenIds(rows).Ok?
    ensures var taken := GivenIds(rows).value; Distinct(taken) && ValidIds(taken) && OwnIds(rows, taken)
    decreases |rows|
  {
    if rows != [] {
      var n := |rows| - 1;
      GivenIdsAreDistinct(rows[..n]);
      var taken, id := GivenIds(rows[..n]).value, RowId(rows[n]);
      NoEmptyId(taken);
      OwnIdsPush(rows[..n], rows[n], taken);
      FrontAndLast(rows);
      if id != "" {
        DistinctPush(taken, id);
      }
    }
  }

  /** How far the second pass has come: every id is in use, and each is the row's own or new. */
  ghost predicate Minting(rows: seq<Fields>, given: seq<string>, ids: seq<string>, taken: seq<string>) {
    && |ids| == |rows| && Distinct(ids) && ValidIds(ids)
    && (forall x :: x in given ==> x in taken)
    && (forall i :: 0 <= i < |ids| ==> ids[i] in taken)
    && (forall i :: 0 <= i < |ids| ==> if RowId(rows[i]) != "" then ids[i] == RowId(rows[i]) else ids[i] !in given)
  }

  lemma MintStep(rows: seq<Fields>, row: Fields, given: seq<string>, ids: seq<string>, taken: seq<string>,
                 id: string, more: seq<string>)
    requires Minting(rows, given, ids, taken) && IsValidId(id)
    requires if RowId(row) != "" then id == RowId(row) && id in given && more == [] else id !in taken && more == [id]
    requires OwnIds(rows + [row], given)
    ensures Minting(rows + [row], given, ids + [id], taken + more)
  {
    var all := rows + [row];
    forall i | 0 <= i < |ids| ensures ids[i] != id {
      assert all[i] == rows[i] && all[|rows|] == row;
    }
    DistinctPush(ids, id);
  }

  lemma {:induction false} MintedAreDistinct(rows: seq<Fields>, given: seq<string>)
    requires MintedIds(rows, given).Ok? && OwnIds(rows, given) && ValidIds(given)
    ensures var r := MintedIds(rows, given).value; Minting(rows, given, r.0, r.1)
    decreases |rows|
  {
    if rows != [] {
      var n := |rows| - 1;
      var front := rows[..n];
      assert forall i :: 0 <= i < n ==> front[i] == rows[i];
      MintedAreDistinct(front, given);
      var before := MintedIds(front, given).value;
      var id := RowId(rows[n]);
      FrontAndLast(rows);
      if id != "" {
        assert IsValidId(id);
        assert before.1 + [] == before.1;
        MintStep(front, rows[n], given, before.0, before.1, id, []);
      } else {
        MintIsNext(before.1);
        var minted := MintId(before.1).value;
        MintStep(front, rows[n], given, before.0, before.1, minted, [minted]);
      }
    }
  }

  /** How many rows come without an id. */
  function Missing(rows: seq<Fields>): nat {
    if rows == [] then 0
    else Missing(rows[..|rows| - 1]) + if RowId(rows[|rows| - 1]) == "" then 1 else 0
  }

  lemma MintRaisesHighest(taken: seq<string>)
    requires Highest(taken) < MAX_NUMBER
    ensures MintId(taken).Some? && Highest(taken + [MintId(taken).value]) == Highest(taken) + 1
  {
    MintIsNext(taken);
    NumberReadsBack(Highest(taken) + 1);
    var after := taken + [MintId(taken).value];
    assert after[..|taken|] == taken;
  }

  /** Minting uses the numbers after the highest one in use, one a row, and overflows exactly when there
      are fewer of them than rows without an id. */
  lemma {:induction false} MintedIff(rows: seq<Fields>, taken: seq<string>)
    ensures MintedIds(rows, taken).Ok? <==> Highest(taken) + Missing(rows) <= MAX_NUMBER
    ensures MintedIds(rows, taken).Ok? ==> Highest(MintedIds(rows, taken).value.1) == Highest(taken) + Missing(rows)
    decreases |rows|
  {
    if rows != [] {
      var n := |rows| - 1;
      MintedIff(rows[..n], taken);
      if MintedIds(rows[..n], taken).Ok? && RowId(rows[n]) == "" {
        var now := MintedIds(rows[..n], taken).value.1;
        MintIsNext(now);
        if Highest(now) < MAX_NUMBER {
          MintRaisesHighest(now);
        }
      }
    }
  }

  lemma HighestOfOne(n: nat)
    requires n <= MAX_NUMBER
    ensures Highest([NumberedId(n)]) == n
  {
    NumberReadsBack(n);
    assert [NumberedId(n)][..0] == [];
  }

  /** With the last number taken one row without an id overflows; with the one before it, two do and one
      does not. */
  lemma LastNumbersOverflow()
    ensures MintedIds([[]], [NumberedId(MAX_NUMBER)]) == Err(Overflow)
    ensures MintedIds([[], []], [NumberedId(MAX_NUMBER - 1)]) == Err(Overflow)
    ensures MintedIds([[]], [NumberedId(MAX_NUMBER - 1)]).Ok?
  {
    HighestOfOne(MAX_NUMBER);
    HighestOfOne(MAX_NUMBER - 1);
    var none: Fields := [];
    assert [none][..0] == [] && [none, none][..1] == [none];
    assert Missing([none]) == 1 && Missing([none, none]) == 2;
    MintedIff([none], [NumberedId(MAX_NUMBER)]);
    MintedIff([none, none], [NumberedId(MAX_NUMBER - 1)]);
    MintedIff([none], [NumberedId(MAX_NUMBER - 1)]);
    MintFailsByOverflow([none], [NumberedId(MAX_NUMBER)]);
    MintFailsByOverflow([none, none], [NumberedId(MAX_NUMBER - 1)]);
  }

  lemma {:induction false} MintFailsByOverflow(rows: seq<Fields>, taken: seq<string>)
    ensures MintedIds(rows, taken).Err? ==> MintedIds(rows, taken) == Err(Overflow)
    decreases |rows|
  {
    if rows != [] {
      MintFailsByOverflow(rows[..|rows| - 1], taken);
    }
  }

  /** Every row ends up with an id of its own: distinct and valid, and the one it came with if it came
      with one. */
  lemma IdsAreDistinct(rows: seq<Fields>)
    requires IdsOf(rows).Ok?
    ensures var ids := IdsOf(rows).value;
      && Distinct(ids) && ValidIds(ids)
      && forall i :: 0 <= i < |rows| && RowId(rows[i]) != "" ==> ids[i] == RowId(rows[i])
  {
    var given := GivenIds(rows).value;
    GivenIdsAreDistinct(rows);
    MintedAreDistinct(rows, given);
  }

  // --- rows -----------------------------------------------------------------------------

  ghost predicate AllShaped(rows: seq<Generation>) {
    forall i :: 0 <= i < |rows| ==> Shape(rows[i])
  }

  predicate AnyRetired(rows: seq<Generation>) {
    exists i :: 0 <= i < |rows| && rows[i].retired
  }

  /** How many raw rows are enabled primaries, on removed engines or on live ones. */
  function CountPrimaries(maps: seq<Fields>, removed: bool): nat {
    if maps == [] then 0
    else
      var n := |maps| - 1;
      CountPrimaries(maps[..n], removed)
      + if IsEnabledPrimary(maps[n]) && (EngineSetting(maps[n]) in REMOVED_ENGINES) == removed then 1 else 0
  }

  /** A raw row on a live engine that does not say it is disabled. */
  predicate Runs(row: Fields) {
    EngineSetting(row) !in REMOVED_ENGINES && ValueBool(Get(row, "enabled"), true)
  }

  predicate AnyRuns(maps: seq<Fields>) {
    exists i :: 0 <= i < |maps| && Runs(maps[i])
  }

  ghost predicate RowsRead(maps: seq<Fields>, ids: seq<string>, rows: seq<Generation>) {
    && |rows| == |maps| && Ids(rows) == ids && Distinct(Names(rows)) && AllShaped(rows)
    && |Primaries(rows)| == CountPrimaries(maps, false)
    && (LostPrimary(rows) <==> CountPrimaries(maps, true) > 0)
    && (HasRunnable(rows) <==> AnyRuns(maps))
  }

  lemma ReadStep(maps: seq<Fields>, ids: seq<string>, rows: seq<Generation>, entry: Fields, id: string, g: Generation)
    requires RowsRead(maps, ids, rows) && Shape(g) && g.id == id && g.name !in Names(rows)
    requires IsPrimary(g) <==> IsEnabledPrimary(entry) && EngineSetting(entry) !in REMOVED_ENGINES
    requires WasLost(g) <==> IsEnabledPrimary(entry) && EngineSetting(entry) in REMOVED_ENGINES
    requires g.Runnable() <==> Runs(entry)
    ensures RowsRead(maps + [entry], ids + [id], rows + [g])
  {
    var after := rows + [g];
    assert after[..|rows|] == rows && (maps + [entry])[..|maps|] == maps;
    LabelsPush(rows, g);
    DistinctPush(Names(rows), g.name);
    LostPush(rows, g);
    RunnablePush(rows, g);
    RunsPush(maps, entry);
  }

  lemma RunnablePush(rows: seq<Generation>, g: Generation)
    ensures HasRunnable(rows + [g]) <==> HasRunnable(rows) || g.Runnable()
  {
    var after := rows + [g];
    if g.Runnable() {
      assert after[|rows|].Runnable();
    }
    if HasRunnable(rows) {
      var i :| 0 <= i < |rows| && rows[i].Runnable();
      assert after[i].Runnable();
    }
  }

  lemma RunsPush(maps: seq<Fields>, entry: Fields)
    ensures AnyRuns(maps + [entry]) <==> AnyRuns(maps) || Runs(entry)
  {
    var after := maps + [entry];
    if Runs(entry) {
      assert Runs(after[|maps|]);
    }
    if AnyRuns(maps) {
      var i :| 0 <= i < |maps| && Runs(maps[i]);
      assert Runs(after[i]);
    }
  }

  lemma LostPush(rows: seq<Generation>, g: Generation)
    ensures LostPrimary(rows + [g]) <==> LostPrimary(rows) || WasLost(g)
  {
    var after := rows + [g];
    if WasLost(g) {
      assert WasLost(after[|rows|]);
    }
    if LostPrimary(rows) {
      var i :| 0 <= i < |rows| && WasLost(rows[i]);
      assert WasLost(after[i]);
    }
  }

  lemma ReadRow(maps: seq<Fields>, ids: seq<string>, rows: seq<Generation>, entry: Fields, id: string,
                read: Result<Read>)
    requires RowsRead(maps, ids, rows) && read == RowOf(|maps|, entry, id, Names(rows)) && read.Ok?
    ensures RowsRead(maps + [entry], ids + [id], rows + [read.value.row])
  {
    RowShape(|maps|, entry, id, Names(rows));
    ReadStep(maps, ids, rows, entry, id, read.value.row);
  }

  lemma RowsOfLast(maps: seq<Fields>, ids: seq<string>, entry: Fields, id: string)
    returns (before: Parsed, read: Result<Read>)
    requires |ids| == |maps| && RowsOf(maps + [entry], ids + [id]).Ok?
    ensures RowsOf(maps, ids) == Ok(before) && read == RowOf(|maps|, entry, id, Names(before.rows)) && read.Ok?
    ensures RowsOf(maps + [entry], ids + [id]) ==
      Ok(Parsed(before.rows + [read.value.row], before.migrated || read.value.migrated))
  {
    assert (maps + [entry])[..|maps|] == maps && (ids + [id])[..|ids|] == ids;
    before := RowsOf(maps, ids).value;
    read := RowOf(|maps|, entry, id, Names(before.rows));
  }

  lemma {:induction false} RowsAreRead(maps: seq<Fields>, ids: seq<string>)
    requires |ids| == |maps| && RowsOf(maps, ids).Ok?
    ensures RowsRead(maps, ids, RowsOf(maps, ids).value.rows)
    decreases |maps|
  {
    if maps != [] {
      var n := |maps| - 1;
      FrontAndLast(maps);
      FrontAndLast(ids);
      var before, read := RowsOfLast(maps[..n], ids[..n], maps[n], ids[n]);
      RowsAreRead(maps[..n], ids[..n]);
      ReadRow(maps[..n], ids[..n], before.rows, maps[n], ids[n], read);
    }
  }

  // --- the primary row ------------------------------------------------------------------

  /** Adding rows in front or changing one keeps the count of primaries countable. */
  lemma {:induction false} PrimariesInFront(g: Generation, rows: seq<Generation>)
    ensures |Primaries([g] + rows)| == |Primaries(rows)| + if IsPrimary(g) then 1 else 0
    decreases |rows|
  {
    if rows == [] {
      OnePrimary(g);
      assert [g] + rows == [g];
    } else {
      var n := |rows| - 1;
      PrimariesInFront(g, rows[..n]);
      FrontOfSum(g, rows);
    }
  }

  lemma OnePrimary(g: Generation)
    ensures |Primaries([g])| == if IsPrimary(g) then 1 else 0
  {
    assert [g][..0] == [];
  }

  lemma FrontOfSum<T>(x: T, s: seq<T>)
    requires s != []
    ensures ([x] + s)[..|s|] == [x] + s[..|s| - 1] && ([x] + s)[|s|] == s[|s| - 1]
  {
  }

  lemma UpdateAndFront<T>(s: seq<T>, i: nat, x: T)
    requires i < |s|
    ensures s[i := x][..|s| - 1] == if i == |s| - 1 then s[..|s| - 1] else s[..|s| - 1][i := x]
  {
  }

  lemma {:induction false} PrimariesAfterPromotion(rows: seq<Generation>, i: nat)
    requires i < |rows| && rows[i].Runnable() && !rows[i].primary
    ensures |Primaries(rows[i := rows[i].(primary := true)])| == |Primaries(rows)| + 1
    decreases |rows|
  {
    var n := |rows| - 1;
    UpdateAndFront(rows, i, rows[i].(primary := true));
    if i < n {
      PrimariesAfterPromotion(rows[..n], i);
    }
  }

  lemma {:induction false} NoPrimaryIffNone(rows: seq<Generation>)
    ensures Primaries(rows) == [] <==> !HasPrimary(rows)
    decreases |rows|
  {
    if rows != [] {
      var n := |rows| - 1;
      NoPrimaryIffNone(rows[..n]);
      if HasPrimary(rows) {
        var i :| 0 <= i < |rows| && IsPrimary(rows[i]);
        assert i < n ==> IsPrimary(rows[..n][i]);
      } else {
        assert forall i :: 0 <= i < n ==> rows[..n][i] == rows[i];
      }
    }
  }

  /** A list is refused exactly when it has a runnable row and not exactly one runnable primary. */
  lemma ValidateIff(rows: seq<Generation>)
    ensures Validate(rows) == None <==> (HasRunnable(rows) ==> |Primaries(rows)| == 1)
    ensures HasPrimary(rows) ==> HasRunnable(rows)
  {
    if HasPrimary(rows) {
      var i :| 0 <= i < |rows| && IsPrimary(rows[i]);
      assert rows[i].Runnable();
    }
  }

  /** What an accepted list of rows looks like. */
  ghost predicate Sound(rows: seq<Generation>) {
    rows != [] && AllShaped(rows) && Distinct(Ids(rows)) && ValidIds(Ids(rows)) && Distinct(Names(rows))
  }

  ghost predicate Settled(rows: seq<Generation>) {
    Sound(rows) && Validate(rows) == None
  }

  lemma PromotionKeeps(rows: seq<Generation>, i: nat)
    requires Sound(rows) && i < |rows| && rows[i].Runnable()
    ensures Sound(rows[i := rows[i].(primary := true)])
  {
    var after := rows[i := rows[i].(primary := true)];
    assert Ids(after) == Ids(rows) && Names(after) == Names(rows);
    assert LiveShape(after[i]);
  }

  lemma InsertionKeeps(rows: seq<Generation>, g: Generation)
    requires Sound(rows) && Shape(g) && IsValidId(g.id) && g.id !in Ids(rows) && g.name !in Names(rows)
    ensures Sound([g] + rows)
  {
    LabelsInFront(g, rows);
    DistinctInFront(g.id, Ids(rows));
    DistinctInFront(g.name, Names(rows));
  }

  lemma LabelsInFront(g: Generation, rows: seq<Generation>)
    ensures Ids([g] + rows) == [g.id] + Ids(rows) && Names([g] + rows) == [g.name] + Names(rows)
  {
  }

  lemma LabelsPush(rows: seq<Generation>, g: Generation)
    ensures Ids(rows + [g]) == Ids(rows) + [g.id] && Names(rows + [g]) == Names(rows) + [g.name]
  {
  }

  lemma DistinctInFront(x: string, s: seq<string>)
    requires Distinct(s) && x !in s
    ensures Distinct([x] + s)
  {
  }

  lemma PromotionRepairs(rows: seq<Generation>, i: nat)
    requires Sound(rows) && Primaries(rows) == [] && !HasPrimary(rows) && i < |rows| && rows[i].Runnable()
    ensures var after := rows[i := rows[i].(primary := true)]; Sound(after) && |Primaries(after)| == 1
  {
    PromotionKeeps(rows, i);
    assert !IsPrimary(rows[i]);
    PrimariesAfterPromotion(rows, i);
  }

  lemma InsertionRepairs(rows: seq<Generation>, id: string, name: string)
    requires Sound(rows) && Primaries(rows) == []
    requires MintId(Ids(rows)) == Some(id) && SeedName(DEFAULT_ENGINE, None, Names(rows)) == Some(name)
    ensures var after := [DefaultRow(id, name)] + rows; Sound(after) && |Primaries(after)| == 1
  {
    MintIsNext(Ids(rows));
    var g := DefaultRow(id, name);
    DefaultRowShape(id, name);
    InsertionKeeps(rows, g);
    PrimariesInFront(g, rows);
  }

  lemma OneRuns(rows: seq<Generation>)
    requires |Primaries(rows)| == 1
    ensures HasRunnable(rows)
  {
    NoPrimaryIffNone(rows);
    ValidateIff(rows);
  }

  /** The repair keeps ids and names distinct (the added row's too), and leaves exactly one primary
      whenever it repairs. */
  lemma RepairIsSound(p: Parsed)
    requires Sound(p.rows) && WithPrimary(p).Ok?
    ensures var q := WithPrimary(p).value; Sound(q.rows)
    ensures var q := WithPrimary(p).value;
      if HasPrimary(p.rows) || !LostPrimary(p.rows) then q == p
      else |Primaries(q.rows)| == 1 && HasRunnable(q.rows)
  {
    if !HasPrimary(p.rows) && LostPrimary(p.rows) {
      NoPrimaryIffNone(p.rows);
      var i := FindDefault(p.rows);
      if i < |p.rows| {
        PromotionRepairs(p.rows, i);
      } else {
        InsertionRepairs(p.rows, MintId(Ids(p.rows)).value, SeedName(DEFAULT_ENGINE, None, Names(p.rows)).value);
      }
      OneRuns(WithPrimary(p).value.rows);
    }
  }

  predicate RunsDefault(g: Generation) {
    g.enabled && !g.retired && g.engine == DEFAULT_ENGINE
  }

  /** Row `i` is the first that runs on the default engine, and the only one changed: it is made primary. */
  predicate Promoted(rows: seq<Generation>, after: seq<Generation>, i: nat) {
    && |after| == |rows| && i < |rows|
    && RunsDefault(rows[i]) && (forall j :: 0 <= j < i ==> !RunsDefault(rows[j]))
    && after[i] == rows[i].(primary := true) && forall j :: 0 <= j < |rows| && j != i ==> after[j] == rows[j]
  }

  /** A new row in front: enabled, primary, on the default engine as it comes, and told from all others. */
  predicate IsNewPrimary(rows: seq<Generation>, g: Generation) {
    && RunsDefault(g) && g.primary && g.detector == Some(DEFAULT_DETECTOR) && g.patchBudget == DEFAULT_PATCH_BUDGET
    && g.pools == NO_POOLS && g.precision == DEFAULT_PRECISION_MODE && g.pick == None && g.why == "" && g.raw == None
    && forall j :: 0 <= j < |rows| ==> rows[j].id != g.id && rows[j].name != g.name
  }

  /** The repair changes as little as it can. When a row that runs is on the default engine, the first such
      row becomes primary and nothing else changes; only when there is none, a new row is put in front. */
  lemma RepairChangesLeast(p: Parsed)
    requires WithPrimary(p).Ok? && !HasPrimary(p.rows) && LostPrimary(p.rows)
    ensures var q := WithPrimary(p).value;
      && q.migrated
      && if exists i :: 0 <= i < |p.rows| && RunsDefault(p.rows[i]) then exists i :: Promoted(p.rows, q.rows, i)
         else |q.rows| == |p.rows| + 1 && q.rows[1..] == p.rows && IsNewPrimary(p.rows, q.rows[0])
  {
    var i, after := FindDefault(p.rows), WithPrimary(p).value.rows;
    assert forall j :: 0 <= j < |p.rows| ==>
      (RunsDefault(p.rows[j]) <==> p.rows[j].Runnable() && p.rows[j].engine == DEFAULT_ENGINE);
    if i < |p.rows| {
      assert Promoted(p.rows, after, i);
    } else {
      MintIsNext(Ids(p.rows));
      NewIsTold(p.rows, after[0]);
    }
  }

  lemma NewIsTold(rows: seq<Generation>, g: Generation)
    requires g.id !in Ids(rows) && g.name !in Names(rows)
    ensures forall j :: 0 <= j < |rows| ==> rows[j].id != g.id && rows[j].name != g.name
  {
    forall j | 0 <= j < |rows| ensures rows[j].id != g.id && rows[j].name != g.name {
      assert Ids(rows)[j] == rows[j].id && Names(rows)[j] == rows[j].name;
    }
  }

  lemma DefaultListIsSettled()
    ensures Settled([DefaultRow("g-1", DEFAULT_ENGINE)])
  {
    var g := DefaultRow("g-1", DEFAULT_ENGINE);
    assert NameAccepted(DEFAULT_ENGINE) by {
      assert AllNameChars(DEFAULT_ENGINE);
      assert DEFAULT_ENGINE[0] == 'h' && RESERVED_NAMES[0][0] == 'o' && RESERVED_NAMES[1][0] == 'g'
             && RESERVED_NAMES[2][0] == 'u' && RESERVED_PREFIX[0] == 't';
    }
    OnePrimary(g);
    ValidateIff([g]);
    assert IsValidId("g-1");
  }

  lemma ReadRowsAreSound(maps: seq<Fields>)
    requires maps != [] && IdsOf(maps).Ok? && RowsOf(maps, IdsOf(maps).value).Ok?
    ensures Sound(RowsOf(maps, IdsOf(maps).value).value.rows)
  {
    IdsAreDistinct(maps);
    RowsAreRead(maps, IdsOf(maps).value);
  }

  /** Every accepted list has pairwise distinct valid ids and pairwise distinct names, minted, seeded
      and added ones included, and at most one runnable primary (exactly one when a row runs). */
  lemma AcceptedIsSettled(maps: seq<Fields>)
    requires ListOf(maps).Ok?
    ensures Settled(ListOf(maps).value.rows)
  {
    if maps == [] {
      DefaultListIsSettled();
    } else {
      ReadRowsAreSound(maps);
      RepairIsSound(RowsOf(maps, IdsOf(maps).value).value);
    }
  }

  // --- what is accepted -----------------------------------------------------------------

  lemma RepairedIsAccepted(p: Parsed)
    requires Sound(p.rows) && WithPrimary(p).Ok?
    ensures var n := |Primaries(p.rows)|;
      Validate(WithPrimary(p).value.rows) == None <==>
        n == 1 || (n == 0 && (LostPrimary(p.rows) || !HasRunnable(p.rows)))
  {
    RepairIsSound(p);
    ValidateIff(p.rows);
    ValidateIff(WithPrimary(p).value.rows);
    NoPrimaryIffNone(p.rows);
  }

  /** Every row parses, into `p` under `ids`. */
  predicate AllParse(maps: seq<Fields>, ids: seq<string>, p: Parsed) {
    maps != [] && IdsOf(maps) == Ok(ids) && RowsOf(maps, ids) == Ok(p)
  }

  /** An id number and a name are left for a default row. */
  predicate HasRoom(rows: seq<Generation>) {
    && Highest(Ids(rows)) < MAX_NUMBER
    && !AllTaken(Stem(DEFAULT_ENGINE, None), Names(rows), 1, MAX_COUNTER + 1)
  }

  /** There always is, while no id has the last number and a 32-bit counter outnumbers the rows. */
  lemma UsuallyHasRoom(rows: seq<Generation>)
    requires |rows| < MAX_COUNTER && Highest(Ids(rows)) < MAX_NUMBER
    ensures HasRoom(rows)
  {
    var k := SeedingSucceeds(DEFAULT_ENGINE, None, Names(rows));
    SeedingFailsIff(DEFAULT_ENGINE, None, Names(rows));
  }

  /** The exact condition, over all lists whose rows parse: one raw row on a live engine is an enabled
      primary; or none is, but one on a removed engine was, and a default row could still be named and
      numbered (the repair supplies the primary); or no raw row is one and no row runs. */
  lemma AcceptedIff(maps: seq<Fields>, ids: seq<string>, p: Parsed)
    requires AllParse(maps, ids, p)
    ensures var live, removed := CountPrimaries(maps, false), CountPrimaries(maps, true);
      ListOf(maps).Ok? <==>
        live == 1 || (live == 0 && if removed > 0 then HasRoom(p.rows) else !AnyRuns(maps))
  {
    ParsedIsRead(maps, ids, p);
    RepairSucceedsIff(p);
    NoPrimaryIffNone(p.rows);
    if WithPrimary(p).Ok? {
      AcceptedByCounts(maps, ids, p);
      ListOfSteps(maps, ids, p);
    } else {
      ListOfOverflows(maps, ids, p);
    }
  }

  lemma ParsedIsRead(maps: seq<Fields>, ids: seq<string>, p: Parsed)
    requires maps != [] && IdsOf(maps) == Ok(ids) && RowsOf(maps, ids) == Ok(p)
    ensures RowsRead(maps, ids, p.rows) && Sound(p.rows)
  {
    ReadRowsAreSound(maps);
    RowsAreRead(maps, ids);
  }

  lemma ListOfSteps(maps: seq<Fields>, ids: seq<string>, p: Parsed)
    requires maps != [] && IdsOf(maps) == Ok(ids) && RowsOf(maps, ids) == Ok(p)
    requires WithPrimary(p).Ok?
    ensures ListOf(maps) == match Validate(WithPrimary(p).value.rows) case None => WithPrimary(p) case Some(e) => Err(e)
  {
  }

  lemma ListOfOverflows(maps: seq<Fields>, ids: seq<string>, p: Parsed)
    requires maps != [] && IdsOf(maps) == Ok(ids) && RowsOf(maps, ids) == Ok(p)
    requires WithPrimary(p).Err?
    ensures ListOf(maps).Err?
  {
  }

  lemma AcceptedByCounts(maps: seq<Fields>, ids: seq<string>, p: Parsed)
    requires RowsRead(maps, ids, p.rows) && Sound(p.rows) && WithPrimary(p).Ok?
    ensures var live, removed := CountPrimaries(maps, false), CountPrimaries(maps, true);
      Validate(WithPrimary(p).value.rows) == None <==> live == 1 || (live == 0 && (removed > 0 || !AnyRuns(maps)))
  {
    RepairedIsAccepted(p);
  }

  /** The repair works unless it has something to do and no room to do it. */
  lemma RepairSucceedsIff(p: Parsed)
    ensures WithPrimary(p).Ok? <==> HasPrimary(p.rows) || !LostPrimary(p.rows) || HasRoom(p.rows)
  {
    MintIsNext(Ids(p.rows));
    SeedingFailsIff(DEFAULT_ENGINE, None, Names(p.rows));
  }

  /** Retiring removed engines never breaks the primary rule: when exactly one raw row is an enabled
      primary, on whichever engine, the list is accepted and exactly one runnable row is primary. (A
      primary on a removed engine needs room for a default row.) */
  lemma OnePrimaryStaysOne(maps: seq<Fields>, ids: seq<string>, p: Parsed)
    requires AllParse(maps, ids, p)
    requires CountPrimaries(maps, false) + CountPrimaries(maps, true) == 1
    requires CountPrimaries(maps, true) == 1 ==> HasRoom(p.rows)
    ensures ListOf(maps).Ok? && |Primaries(ListOf(maps).value.rows)| == 1
  {
    ParsedIsRead(maps, ids, p);
    RepairSucceedsIff(p);
    NoPrimaryIffNone(p.rows);
    AcceptedByCounts(maps, ids, p);
    ListOfSteps(maps, ids, p);
    RepairIsSound(p);
  }

  // --- a 0.5 configuration --------------------------------------------------------------

  /** The row of a 0.5 install: the `mokuro` engine as the primary. */
  function OldPrimary(): Fields {
    [Field("name", Str("mokuro")), Field("engine", Str("mokuro")), Field("primary", Bool(true))]
  }

  function OldPrimaryRow(): Generation {
    Generation("g-1", "mokuro", "mokuro", false, false, None, DEFAULT_PATCH_BUDGET, NO_POOLS, DEFAULT_PRECISION_MODE,
               None, "", true, Some(Put(OldPrimary(), RETIRED_FROM_PRIMARY, Bool(true))))
  }

  lemma OldPrimaryGets(key: string)
    ensures Get(OldPrimary(), key) ==
      if key == "name" then Some(Str("mokuro")) else if key == "engine" then Some(Str("mokuro"))
      else if key == "primary" then Some(Bool(true)) else None
  {
    ThreeFields(OldPrimary()[0], OldPrimary()[1], OldPrimary()[2], key);
  }

  lemma OldPrimarySettings()
    ensures var row := OldPrimary();
      EngineSetting(row) == "mokuro" && NameSetting(row) == "mokuro" && RowId(row) == "" && IsEnabledPrimary(row)
  {
    OldPrimaryGets("engine");
    OldPrimaryGets("name");
    OldPrimaryGets("id");
    OldPrimaryGets("primary");
    OldPrimaryGets("enabled");
    TrimByKeeps("mokuro", IsSpace);
  }

  lemma FirstId()
    ensures MintId([]) == Some("g-1") && Highest(["g-1"]) == 1
  {
    MintIsNext([]);
    assert "g-" + Decimal(1) == "g-1";
    NumberReadsBack(1);
    assert ["g-1"][..0] == [];
  }

  lemma OneRowIds(row: Fields)
    requires RowId(row) == ""
    ensures IdsOf([row]) == Ok(["g-1"])
  {
    FirstId();
    var maps := [row];
    assert maps[..0] == [];
    assert GivenIds(maps) == Ok([]);
    assert MintedIds(maps[..0], []) == Ok(([], []));
    assert [] + ["g-1"] == ["g-1"];
  }

  lemma OneRowParses(row: Fields, read: Read)
    requires RowId(row) == "" && RowOf(0, row, "g-1", []) == Ok(read)
    ensures AllParse([row], ["g-1"], Parsed([read.row], read.migrated))
  {
    OneRowIds(row);
    var maps, ids := [row], ["g-1"];
    assert maps[..0] == [] && ids[..0] == [];
    assert Names([]) == [];
    assert [] + [read.row] == [read.row];
  }

  lemma OldPrimaryParses()
    ensures AllParse([OldPrimary()], ["g-1"], Parsed([OldPrimaryRow()], true))
  {
    OldPrimarySettings();
    assert RowOf(0, OldPrimary(), "g-1", []) == Ok(Read(OldPrimaryRow(), true));
    OneRowParses(OldPrimary(), Read(OldPrimaryRow(), true));
  }

  /** A 0.5 install's only row is retired and a default primary row put in front of it. */
  lemma OldPrimaryIsReplaced()
    ensures var r := ListOf([OldPrimary()]); r.Ok? && |Primaries(r.value.rows)| == 1
  {
    OldPrimaryParses();
    OldPrimarySettings();
    assert [OldPrimary()][..0] == [];
    FirstId();
    assert Ids([OldPrimaryRow()]) == ["g-1"];
    UsuallyHasRoom([OldPrimaryRow()]);
    OnePrimaryStaysOne([OldPrimary()], ["g-1"], Parsed([OldPrimaryRow()], true));
  }

  // --- files ----------------------------------------------------------------------------

  /** Runnable rows write different sidecars. */
  lemma SidecarsAreDistinct(maps: seq<Fields>, i: nat, j: nat)
    requires ListOf(maps).Ok?
    requires var rows := ListOf(maps).value.rows; i < j < |rows| && rows[i].Runnable() && rows[j].Runnable()
    ensures var rows := ListOf(maps).value.rows; rows[i].SidecarSuffix() != rows[j].SidecarSuffix()
  {
    var rows := ListOf(maps).value.rows;
    AcceptedIsSettled(maps);
    assert Names(rows)[i] != Names(rows)[j];
    ValidateIff(rows);
    assert HasRunnable(rows);
    if rows[i].primary && rows[j].primary {
      TwoPrimaries(rows, i, j);
      assert false;
    } else {
      SuffixTellsName(rows[i], rows[j]);
    }
  }

  lemma SuffixTellsName(a: Generation, b: Generation)
    requires a.name != "" && b.name != "" && a.name != b.name && !(a.primary && b.primary)
    ensures a.SidecarSuffix() != b.SidecarSuffix()
  {
    var x, y := "." + a.name + ".mokuro", "." + b.name + ".mokuro";
    assert |x| == |y| ==> x[1..|x| - 7] == a.name && y[1..|y| - 7] == b.name;
  }

  lemma {:induction false} TwoPrimaries(rows: seq<Generation>, i: nat, j: nat)
    requires i < j < |rows| && IsPrimary(rows[i]) && IsPrimary(rows[j])
    ensures |Primaries(rows)| >= 2
    decreases |rows|
  {
    var n := |rows| - 1;
    if j < n {
      TwoPrimaries(rows[..n], i, j);
    } else {
      assert rows[..n][i] == rows[i];
      NoPrimaryIffNone(rows[..n]);
    }
  }

  // --- saving and loading ---------------------------------------------------------------

  function Saved(rows: seq<Generation>): seq<Fields> {
    seq(|rows|, i requires 0 <= i < |rows| => rows[i].ToFields())
  }

  function Rereads(rows: seq<Generation>): seq<Generation> {
    seq(|rows|, i requires 0 <= i < |rows| => Reread(rows[i]))
  }

  lemma SavedPush(rows: seq<Generation>, g: Generation)
    ensures Saved(rows + [g]) == Saved(rows) + [g.ToFields()] && Rereads(rows + [g]) == Rereads(rows) + [Reread(g)]
  {
  }

  lemma SavedId(g: Generation)
    requires (g.retired ==> g.raw.Some?) && IsValidId(g.id)
    ensures RowId(g.ToFields()) == g.id
  {
    IdShown(g);
    TrimByKeeps(g.id, IsSpace);
  }

  lemma ShapeKeepsRaw(g: Generation)
    requires Shape(g)
    ensures g.retired ==> g.raw.Some?
  {
  }

  lemma IdShown(g: Generation)
    requires g.retired ==> g.raw.Some?
    ensures Get(g.ToFields(), "id") == Some(Str(g.id))
  {
    if g.retired {
      RetiredGets(g, "id");
    } else {
      PrintedShows(g, "id");
    }
  }

  lemma SavedIds(rows: seq<Generation>)
    requires AllShaped(rows) && ValidIds(Ids(rows))
    ensures forall i :: 0 <= i < |rows| ==> RowId(Saved(rows)[i]) == Ids(rows)[i] != ""
  {
    forall i | 0 <= i < |rows| ensures RowId(Saved(rows)[i]) == Ids(rows)[i] != "" {
      assert IsValidId(Ids(rows)[i]);
      ShapeKeepsRaw(rows[i]);
      SavedId(rows[i]);
    }
  }

  /** Rows that come with distinct valid ids keep them, and none is minted. */
  lemma {:induction false} IdsKept(maps: seq<Fields>, ids: seq<string>, taken: seq<string>)
    requires |ids| == |maps| && Distinct(ids) && ValidIds(ids)
    requires forall i :: 0 <= i < |maps| ==> RowId(maps[i]) == ids[i] != ""
    ensures GivenIds(maps) == Ok(ids) && MintedIds(maps, taken) == Ok((ids, taken))
    decreases |maps|
  {
    if maps != [] {
      var n := |maps| - 1;
      IdsKept(maps[..n], ids[..n], taken);
      FrontAndLast(ids);
      assert ids[n] !in ids[..n];
    } else {
      assert ids == [];
    }
  }

  lemma RetiredPush(rows: seq<Generation>, g: Generation)
    ensures AnyRetired(rows + [g]) <==> AnyRetired(rows) || g.retired
  {
    var after := rows + [g];
    if g.retired {
      assert after[|rows|].retired;
    }
    if AnyRetired(rows) {
      var i :| 0 <= i < |rows| && rows[i].retired;
      assert after[i].retired;
    }
  }

  lemma RereadNames(rows: seq<Generation>)
    ensures Names(Rereads(rows)) == Names(rows) && Ids(Rereads(rows)) == Ids(rows)
  {
  }

  lemma {:induction false} RowsKept(rows: seq<Generation>)
    requires AllShaped(rows) && Distinct(Names(rows))
    ensures RowsOf(Saved(rows), Ids(rows)) == Ok(Parsed(Rereads(rows), AnyRetired(rows)))
    decreases |rows|
  {
    if rows == [] {
      assert Saved(rows) == [] && Rereads(rows) == [];
    } else {
      var n := |rows| - 1;
      var front, g := rows[..n], rows[n];
      FrontAndLast(rows);
      LabelsPush(front, g);
      DistinctPush(Names(front), g.name);
      RowsKept(front);
      RowReread(n, g, Names(front));
      RereadNames(front);
      KeptPush(front, g);
    }
  }

  lemma KeptPush(rows: seq<Generation>, g: Generation)
    requires RowsOf(Saved(rows), Ids(rows)) == Ok(Parsed(Rereads(rows), AnyRetired(rows)))
    requires RowOf(|rows|, g.ToFields(), g.id, Names(rows)) == Ok(Read(Reread(g), g.retired))
    requires Names(Rereads(rows)) == Names(rows)
    ensures RowsOf(Saved(rows + [g]), Ids(rows + [g])) == Ok(Parsed(Rereads(rows + [g]), AnyRetired(rows + [g])))
  {
    SavedPush(rows, g);
    LabelsPush(rows, g);
    RetiredPush(rows, g);
    FrontOfPush(Saved(rows), g.ToFields());
    FrontOfPush(Ids(rows), g.id);
  }

  lemma {:induction false} RereadPrimaries(rows: seq<Generation>)
    ensures Primaries(Rereads(rows)) == Primaries(rows)
    decreases |rows|
  {
    if rows == [] {
      assert Rereads(rows) == [];
    } else {
      var n := |rows| - 1;
      FrontAndLast(rows);
      SavedPush(rows[..n], rows[n]);
      FrontOfPush(Rereads(rows[..n]), Reread(rows[n]));
      RereadPrimaries(rows[..n]);
    }
  }

  lemma RereadRunnable(rows: seq<Generation>)
    ensures HasRunnable(Rereads(rows)) <==> HasRunnable(rows)
  {
    var after := Rereads(rows);
    assert forall i :: 0 <= i < |rows| ==> after[i].Runnable() == rows[i].Runnable();
  }

  lemma RereadNotLost(rows: seq<Generation>)
    requires AllShaped(rows)
    ensures !LostPrimary(Rereads(rows))
  {
    forall i | 0 <= i < |rows| ensures !WasLost(Rereads(rows)[i]) {
      RereadIsSame(rows[i]);
    }
  }

  lemma RereadAccepted(rows: seq<Generation>)
    requires Settled(rows)
    ensures var p := Parsed(Rereads(rows), AnyRetired(rows));
      WithPrimary(p) == Ok(p) && Validate(p.rows) == None
  {
    RereadNotLost(rows);
    RereadPrimaries(rows);
    RereadRunnable(rows);
    ValidateIff(rows);
    ValidateIff(Rereads(rows));
  }

  lemma SettledReloads(rows: seq<Generation>)
    requires Settled(rows)
    ensures ListOf(Saved(rows)) == Ok(Parsed(Rereads(rows), AnyRetired(rows)))
  {
    SavedIds(rows);
    IdsKept(Saved(rows), Ids(rows), Ids(rows));
    RowsKept(rows);
    RereadAccepted(rows);
    ListOfSteps(Saved(rows), Ids(rows), Parsed(Rereads(rows), AnyRetired(rows)));
  }

  lemma {:induction false} MapsOfObjects(items: seq<Json>, maps: seq<Fields>)
    requires |items| == |maps| && forall i :: 0 <= i < |items| ==> items[i] == Obj(maps[i])
    ensures MapsOf(items) == Ok(maps)
    decreases |items|
  {
    if items == [] {
      assert maps == [];
    } else {
      MapsOfObjects(items[..|items| - 1], maps[..|items| - 1]);
      FrontAndLast(maps);
    }
  }

  /** Saving and loading reaches a fixed point in one step. For every accepted configuration, the
      printed rows are accepted again and print the same; every row keeps its id, name, flags, files and
      its having been the primary. The rows come back the same but for what a retired row keeps of its
      past, and the reload is reported as a migration exactly when some row is retired. */
  lemma SaveAndLoad(value: Json, decode: Decoder, p: Parsed)
    requires GenerationList(value, decode) == Ok(p)
    ensures var again := Rereads(p.rows);
      && GenerationList(RowsJson(p.rows), decode) == Ok(Parsed(again, AnyRetired(p.rows)))
      && RowsJson(again) == RowsJson(p.rows)
      && (forall i :: 0 <= i < |p.rows| ==> SameRow(p.rows[i], again[i]))
  {
    AcceptedIsSettled(MapsOf(CoerceRows(value, decode).value).value);
    RowsReload(p.rows, decode);
    AllSame(p.rows);
  }

  lemma RowsReload(rows: seq<Generation>, decode: Decoder)
    requires Settled(rows)
    ensures GenerationList(RowsJson(rows), decode) == Ok(Parsed(Rereads(rows), AnyRetired(rows)))
  {
    SettledReloads(rows);
    MapsOfObjects(RowsJson(rows).items, Saved(rows));
  }

  predicate SameRow(g: Generation, h: Generation) {
    && h.id == g.id && h.name == g.name && h.primary == g.primary && h.enabled == g.enabled && h.retired == g.retired
    && h.WasPrimary() == g.WasPrimary() && h.FilesSuffix() == g.FilesSuffix() && (!g.retired ==> h == g)
  }

  lemma AllSame(rows: seq<Generation>)
    requires AllShaped(rows)
    ensures RowsJson(Rereads(rows)) == RowsJson(rows)
    ensures forall i :: 0 <= i < |rows| ==> SameRow(rows[i], Rereads(rows)[i])
  {
    var again := Rereads(rows);
    forall i | 0 <= i < |rows| ensures SameRow(rows[i], again[i]) && again[i].ToFields() == rows[i].ToFields() {
      RereadIsSame(rows[i]);
    }
    assert RowsJson(again).items == RowsJson(rows).items;
  }
}
