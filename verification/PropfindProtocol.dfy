/**
 The PROPFIND cache as a concurrent protocol: requests, background refreshes, DAV writes and
 invalidations interleaving over a file tree that changes underneath them.
 */
module PropfindProtocol {
  import opened Text
  import Paths
  import opened Recency
  import R = Recency

  type Tree = map<string, string>

  /** What a generation saw, and the tree version that was current when it started. */
  datatype Listing = Listing(start: nat, seen: Tree)

  /** A committed DAV write: what it touched, and whether `invalidate_paths` has run for it. */
  datatype Write = Write(paths: seq<string>, invalidated: bool)

  datatype Phase =
    | Looking(left: nat)
    | Ready
    | HasEpoch(epoch: nat)
    | Generating(epoch: nat, start: nat)
    | Generated(epoch: nat, entry: Entry<Listing>)
    | Answered(answer: Option<Entry<Listing>>)

  /** A `get` (with the writes already invalidated when it began) or a background refresh. */
  datatype Task = Task(key: string, background: bool, owed: set<nat>, phase: Phase)

  /** `writes[j]` turned `trees[j]` into `trees[j + 1]`; the last tree is the current one. */
  datatype State = State(cache: Cache<Listing>, trees: seq<Tree>, writes: seq<Write>, tasks: map<nat, Task>)

  /** A step is one section run under the cache's mutex, one commit of a DAV write, or the start or end
      of a generation. A generation is not atomic: each path is read at some moment between its start
      and its end. The per-key flight locks, generation slots and timers only remove interleavings, so
      they are left out and everything here holds with them too. */
  datatype Action =
    | Begin(id: nat, key: string)
    | Look(id: nat, now: int, spawned: nat)
    | ReadEpoch(id: nat)
    | Start(id: nat)
    | Finish(id: nat, result: Option<Entry<Listing>>)
    | Store(id: nat)
    | EndRefresh(id: nat)
    | Commit(paths: seq<string>, tree: Tree)
    | InvalidateWrite(j: nat)
    | Clear
    | RefreshEverything(ids: map<nat, string>)
    | StopCache

  function Initial(tree: Tree): State {
    State(Empty(), [tree], [], map[])
  }

  function At(t: Tree, q: string): Option<string> {
    if q in t then Some(t[q]) else None
  }

  function InvalidatedWrites(writes: seq<Write>): set<nat> {
    set j: nat | j < |writes| && writes[j].invalidated
  }

  /** Each path below `key` is shown as some tree version from the start on had it. */
  ghost predicate Faithful(trees: seq<Tree>, key: string, l: Listing) {
    l.start < |trees|
    && forall q :: Paths.IsEqualOrChild(key, q) ==> ReadSince(trees, l.start, At(l.seen, q), q)
  }

  ghost predicate ReadSince(trees: seq<Tree>, start: nat, content: Option<string>, q: string) {
    exists v: nat :: start <= v < |trees| && content == At(trees[v], q)
  }

  ghost predicate OnlyTouches(before: Tree, after: Tree, paths: seq<string>) {
    forall q :: !Touched(q, paths) ==> At(before, q) == At(after, q)
  }

  function CurrentTree(s: State): Tree {
    if s.trees == [] then map[] else s.trees[|s.trees| - 1]
  }

  ghost predicate Enabled(s: State, a: Action) {
    match a
    case Begin(id, _) => id !in s.tasks
    case Look(id, _, spawned) =>
      id in s.tasks && s.tasks[id].phase.Looking? && s.tasks[id].phase.left > 0 && spawned !in s.tasks
    case ReadEpoch(id) =>
      id in s.tasks && (s.tasks[id].phase == Looking(0) || s.tasks[id].phase.Ready?)
    case Start(id) => id in s.tasks && s.tasks[id].phase.HasEpoch?
    case Finish(id, result) =>
      && id in s.tasks && s.tasks[id].phase.Generating?
      && (result.Some? ==> result.value.body.start == s.tasks[id].phase.start
                           && Faithful(s.trees, s.tasks[id].key, result.value.body))
    case Store(id) => id in s.tasks && s.tasks[id].phase.Generated?
    case EndRefresh(id) =>
      id in s.tasks && s.tasks[id].background && (s.tasks[id].phase.Answered? || s.tasks[id].phase.Ready?)
    case Commit(paths, tree) => OnlyTouches(CurrentTree(s), tree, paths)
    case InvalidateWrite(j) => j < |s.writes| && !s.writes[j].invalidated
    case Clear => true
    case RefreshEverything(ids) =>
      && ids.Values == ToRefresh(s.cache) && ids.Keys !! s.tasks.Keys
      && (forall i, j :: i in ids && j in ids && i != j ==> ids[i] != ids[j])
    case StopCache => true
  }

  function Refresher(key: string): Task {
    Task(key, true, {}, Ready)
  }

  function Refreshers(ids: map<nat, string>): map<nat, Task> {
    map id | id in ids :: Refresher(ids[id])
  }

  ghost function Apply(cfg: Config, s: State, a: Action): State
    requires Enabled(s, a)
  {
    match a
    case Begin(id, key) =>
      s.(tasks := s.tasks[id := Task(key, false, InvalidatedWrites(s.writes), Looking(2))])
    case Look(id, now, spawned) =>
      var t := s.tasks[id];
      var hit := Servable(cfg, s.cache, t.key, now);
      var tasks := s.tasks[id := t.(phase := if hit.Some? then Answered(hit) else Looking(t.phase.left - 1))];
      s.(cache := Lookup(cfg, s.cache, t.key, now),
         tasks := if StartsRefresh(cfg, s.cache, t.key, now) then tasks[spawned := Refresher(t.key)] else tasks)
    case ReadEpoch(id) =>
      s.(tasks := s.tasks[id := s.tasks[id].(phase := HasEpoch(s.cache.epoch))])
    case Start(id) =>
      var t := s.tasks[id];
      s.(tasks := s.tasks[id := t.(phase := Generating(t.phase.epoch, |s.writes|))])
    case Finish(id, result) =>
      var t := s.tasks[id];
      s.(tasks := s.tasks[id := t.(phase :=
        if result.Some? then Generated(t.phase.epoch, result.value) else Answered(None))])
    case Store(id) =>
      var t := s.tasks[id];
      s.(cache := R.Insert(cfg, s.cache, t.key, t.phase.entry, t.phase.epoch),
         tasks := s.tasks[id := t.(phase := Answered(Some(t.phase.entry)))])
    case EndRefresh(id) =>
      s.(cache := R.RefreshDone(s.cache, s.tasks[id].key), tasks := s.tasks - {id})
    case Commit(paths, tree) =>
      s.(trees := s.trees + [tree], writes := s.writes + [Write(paths, false)])
    case InvalidateWrite(j) =>
      s.(cache := R.InvalidatePaths(s.cache, s.writes[j].paths),
         writes := s.writes[j := s.writes[j].(invalidated := true)])
    case Clear => s.(cache := InvalidateAll(s.cache))
    case RefreshEverything(ids) =>
      s.(cache := R.RefreshAll(s.cache),
         tasks := s.tasks + Refreshers(ids))
    case StopCache => s.(cache := R.Stop(s.cache))
  }

  /** A disabled action is no step. */
  ghost function Next(cfg: Config, s: State, a: Action): State {
    if Enabled(s, a) then Apply(cfg, s, a) else s
  }

  ghost function Run(cfg: Config, s: State, actions: seq<Action>): State
    decreases |actions|
  {
    if actions == [] then s else Run(cfg, Next(cfg, s, actions[0]), actions[1..])
  }

  // --- the invariant --------------------------------------------------------------------

  /** The listing started after every invalidated write that touches what `key` lists. */
  ghost predicate Caught(writes: seq<Write>, key: string, start: nat) {
    forall j :: 0 <= j < |writes| && writes[j].invalidated && Touched(key, writes[j].paths) ==> j < start
  }

  ghost predicate SlotOk(s: State, slot: Slot<Listing>) {
    Faithful(s.trees, slot.key, slot.entry.body) && Caught(s.writes, slot.key, slot.entry.body.start)
  }

  /** A generation under the current epoch started after every invalidated write; one of a `get`
      started after every write invalidated before the `get` began. */
  ghost predicate GenerationOk(s: State, t: Task, epoch: nat, start: nat) {
    && epoch <= s.cache.epoch
    && start < |s.trees|
    && (epoch == s.cache.epoch ==> forall j :: 0 <= j < |s.writes| && s.writes[j].invalidated ==> j < start)
    && (forall j :: j in t.owed ==> j < start)
  }

  ghost predicate TaskOk(s: State, t: Task) {
    && t.owed <= InvalidatedWrites(s.writes)
    && match t.phase
       case Looking(_) => true
       case Ready => true
       case HasEpoch(epoch) => epoch <= s.cache.epoch
       case Generating(epoch, start) => GenerationOk(s, t, epoch, start)
       case Generated(epoch, entry) =>
         GenerationOk(s, t, epoch, entry.body.start) && Faithful(s.trees, t.key, entry.body)
       case Answered(None) => true
       case Answered(Some(entry)) =>
         && Faithful(s.trees, t.key, entry.body)
         && forall j :: j in t.owed && Touched(t.key, s.writes[j].paths) ==> j < entry.body.start
  }

  ghost predicate TreesOk(s: State) {
    && |s.trees| == |s.writes| + 1
    && forall j :: 0 <= j < |s.writes| ==> OnlyTouches(s.trees[j], s.trees[j + 1], s.writes[j].paths)
  }

  /** `refreshing` holds exactly the keys of the refresh tasks alive, one task per key. */
  ghost predicate RefreshOk(s: State) {
    && (forall id :: id in s.tasks && s.tasks[id].background ==> s.tasks[id].key in s.cache.refreshing)
    && (forall k :: k in s.cache.refreshing ==>
          exists id :: id in s.tasks && s.tasks[id].background && s.tasks[id].key == k)
    && (forall i, j :: i in s.tasks && j in s.tasks && s.tasks[i].background && s.tasks[j].background && i != j ==>
          s.tasks[i].key != s.tasks[j].key)
  }

  ghost predicate SlotsOk(s: State) {
    forall slot :: slot in s.cache.slots ==> SlotOk(s, slot)
  }

  ghost predicate TasksOk(s: State) {
    forall id :: id in s.tasks ==> TaskOk(s, s.tasks[id])
  }

  ghost predicate Inv(cfg: Config, s: State) {
    TreesOk(s) && SlotsOk(s) && TasksOk(s) && RefreshOk(s) && Bounded(cfg, s.cache)
  }

  // --- each step keeps it ---------------------------------------------------------------

  lemma FaithfulGrows(trees: seq<Tree>, tree: Tree, key: string, l: Listing)
    requires Faithful(trees, key, l)
    ensures Faithful(trees + [tree], key, l)
  {
    forall q | Paths.IsEqualOrChild(key, q) ensures ReadSince(trees + [tree], l.start, At(l.seen, q), q) {
      assert ReadSince(trees, l.start, At(l.seen, q), q);
      var v: nat :| l.start <= v < |trees| && At(l.seen, q) == At(trees[v], q);
      assert (trees + [tree])[v] == trees[v];
    }
  }

  /** Every slot left by a lookup, an insert or an invalidation was there, or is the one inserted. */
  lemma SlotsFrom(cfg: Config, c: Cache<Listing>, key: string, now: int, entry: Entry<Listing>, epoch: nat,
                  paths: seq<string>)
    ensures forall slot :: slot in Lookup(cfg, c, key, now).slots ==> slot in c.slots
    ensures forall slot :: slot in R.Insert(cfg, c, key, entry, epoch).slots ==>
              slot in c.slots || (slot == Slot(key, entry) && epoch == c.epoch && !c.stopped)
    ensures forall slot :: slot in R.InvalidatePaths(c, paths).slots ==> slot in c.slots && !Touched(slot.key, paths)
  {
    forall slot | slot in Drop(c.slots, {key}) ensures slot in c.slots {
      DropMember(c.slots, {key}, slot);
    }
    var n := ShrinkDropsShortestPrefix(cfg, Drop(c.slots, {key}), entry.size);
    forall slot | slot in Drop(c.slots, {key})[n..] ensures slot in c.slots {
      assert slot in Drop(c.slots, {key});
    }
    forall slot | slot in R.InvalidatePaths(c, paths).slots ensures slot in c.slots && !Touched(slot.key, paths) {
      DropMember(c.slots, Doomed(c.slots, paths), slot);
      assert slot.key in Keys(c.slots);
    }
  }

  /** A step of one task: nothing else of the state changes but its phase. */
  lemma TaskStepKeeps(cfg: Config, s: State, id: nat, phase: Phase)
    requires Inv(cfg, s) && id in s.tasks
    requires TaskOk(s, s.tasks[id].(phase := phase))
    ensures Inv(cfg, s.(tasks := s.tasks[id := s.tasks[id].(phase := phase)]))
  {
    var r := s.(tasks := s.tasks[id := s.tasks[id].(phase := phase)]);
    forall i | i in r.tasks ensures TaskOk(r, r.tasks[i]) {
      assert TaskOk(s, r.tasks[i]);
    }
    forall k | k in r.cache.refreshing
      ensures exists i :: i in r.tasks && r.tasks[i].background && r.tasks[i].key == k
    {
      var i :| i in s.tasks && s.tasks[i].background && s.tasks[i].key == k;
      assert r.tasks[i].background && r.tasks[i].key == k;
    }
    forall slot | slot in r.cache.slots ensures SlotOk(r, slot) {
      assert SlotOk(s, slot);
    }
  }

  /** A cache with the same epoch, refresh set and some of the slots (or a good new one). */
  lemma CacheStepKeeps(cfg: Config, s: State, c: Cache<Listing>)
    requires Inv(cfg, s) && Bounded(cfg, c)
    requires c.epoch == s.cache.epoch && c.refreshing == s.cache.refreshing
    requires forall slot :: slot in c.slots ==> SlotOk(s, slot)
    ensures Inv(cfg, s.(cache := c))
  {
    var r := s.(cache := c);
    forall i | i in r.tasks ensures TaskOk(r, r.tasks[i]) {
      assert TaskOk(s, r.tasks[i]);
    }
    forall slot | slot in r.cache.slots ensures SlotOk(r, slot) {
      assert SlotOk(s, slot);
    }
  }

  /** With the trees, writes and epoch unchanged, good slots and tasks stay good. */
  lemma SameWorld(s: State, r: State)
    requires r.trees == s.trees && r.writes == s.writes && r.cache.epoch == s.cache.epoch
    ensures forall slot :: SlotOk(s, slot) ==> SlotOk(r, slot)
    ensures forall t :: TaskOk(s, t) ==> TaskOk(r, t)
  {
  }

  /** The state with a refresh task spawned for each of `ids`. */
  ghost function Spawned(s: State, ids: map<nat, string>): State {
    s.(cache := s.cache.(refreshing := s.cache.refreshing + ids.Values), tasks := s.tasks + Refreshers(ids))
  }

  lemma SpawnRefreshOk(s: State, ids: map<nat, string>)
    requires RefreshOk(s)
    requires ids.Values !! s.cache.refreshing && ids.Keys !! s.tasks.Keys
    requires forall i, j :: i in ids && j in ids && i != j ==> ids[i] != ids[j]
    ensures RefreshOk(Spawned(s, ids))
  {
    var r := Spawned(s, ids);
    assert forall i :: i in ids ==> r.tasks[i] == Refresher(ids[i]) && ids[i] in ids.Values;
    assert forall i :: i in s.tasks ==> r.tasks[i] == s.tasks[i];
    forall k | k in r.cache.refreshing
      ensures exists i :: i in r.tasks && r.tasks[i].background && r.tasks[i].key == k
    {
      if k in ids.Values {
        var i :| i in ids && ids[i] == k;
        assert i in r.tasks;
      } else {
        var i :| i in s.tasks && s.tasks[i].background && s.tasks[i].key == k;
        assert i in r.tasks;
      }
    }
  }

  /** New refresh tasks for keys that had none. */
  lemma SpawnKeeps(cfg: Config, s: State, ids: map<nat, string>)
    requires Inv(cfg, s)
    requires ids.Values !! s.cache.refreshing && ids.Keys !! s.tasks.Keys
    requires forall i, j :: i in ids && j in ids && i != j ==> ids[i] != ids[j]
    ensures Inv(cfg, Spawned(s, ids))
  {
    SpawnRefreshOk(s, ids);
    SameWorld(s, Spawned(s, ids));
    forall i | i in ids ensures TaskOk(s, Refresher(ids[i])) {
    }
  }

  /** The lookup without the refresh it may start. */
  ghost function Served(cfg: Config, s: State, id: nat, now: int): State
    requires id in s.tasks && s.tasks[id].phase.Looking? && s.tasks[id].phase.left > 0
  {
    var t := s.tasks[id];
    var hit := Servable(cfg, s.cache, t.key, now);
    s.(cache := Lookup(cfg, s.cache, t.key, now).(refreshing := s.cache.refreshing),
       tasks := s.tasks[id := t.(phase := if hit.Some? then Answered(hit) else Looking(t.phase.left - 1))])
  }

  lemma ServedKeeps(cfg: Config, s: State, id: nat, now: int)
    requires Inv(cfg, s)
    requires id in s.tasks && s.tasks[id].phase.Looking? && s.tasks[id].phase.left > 0
    ensures Inv(cfg, Served(cfg, s, id, now))
  {
    var t := s.tasks[id];
    var hit := Servable(cfg, s.cache, t.key, now);
    var phase := if hit.Some? then Answered(hit) else Looking(t.phase.left - 1);
    assert TaskOk(s, t);
    if hit.Some? {
      assert SlotOk(s, Slot(t.key, hit.value));
    }
    TaskStepKeeps(cfg, s, id, phase);
    var s1 := s.(tasks := s.tasks[id := t.(phase := phase)]);
    LookupBounded(cfg, s.cache, t.key, now);
    SlotsFrom(cfg, s.cache, t.key, now, Entry(Listing(0, map[]), 0, 0), 0, []);
    CacheStepKeeps(cfg, s1, Lookup(cfg, s.cache, t.key, now).(refreshing := s.cache.refreshing));
  }

  lemma OneValue(id: nat, key: string)
    ensures map[id := key].Values == {key}
  {
    assert map[id := key][id] == key;
  }

  lemma LookIsServed(cfg: Config, s: State, id: nat, now: int, spawned: nat)
    requires Enabled(s, Look(id, now, spawned)) && !StartsRefresh(cfg, s.cache, s.tasks[id].key, now)
    ensures Apply(cfg, s, Look(id, now, spawned)) == Served(cfg, s, id, now)
  {
  }

  lemma LookIsSpawned(cfg: Config, s: State, id: nat, now: int, spawned: nat)
    requires Enabled(s, Look(id, now, spawned)) && StartsRefresh(cfg, s.cache, s.tasks[id].key, now)
    ensures Apply(cfg, s, Look(id, now, spawned)) == Spawned(Served(cfg, s, id, now), map[spawned := s.tasks[id].key])
  {
    var key, s1 := s.tasks[id].key, Served(cfg, s, id, now);
    OneValue(spawned, key);
    assert Refreshers(map[spawned := key]) == map[spawned := Refresher(key)];
    assert s1.tasks[spawned := Refresher(key)] == s1.tasks + map[spawned := Refresher(key)];
  }

  lemma LookKeeps(cfg: Config, s: State, id: nat, now: int, spawned: nat)
    requires Inv(cfg, s) && Enabled(s, Look(id, now, spawned))
    ensures Inv(cfg, Apply(cfg, s, Look(id, now, spawned)))
  {
    ServedKeeps(cfg, s, id, now);
    if StartsRefresh(cfg, s.cache, s.tasks[id].key, now) {
      LookIsSpawned(cfg, s, id, now, spawned);
      SpawnOneKeeps(cfg, Served(cfg, s, id, now), spawned, s.tasks[id].key);
    } else {
      LookIsServed(cfg, s, id, now, spawned);
    }
  }

  lemma SpawnOneKeeps(cfg: Config, s: State, spawned: nat, key: string)
    requires Inv(cfg, s) && spawned !in s.tasks && key !in s.cache.refreshing
    ensures Inv(cfg, Spawned(s, map[spawned := key]))
  {
    OneValue(spawned, key);
    SpawnKeeps(cfg, s, map[spawned := key]);
  }

  lemma StoreKeeps(cfg: Config, s: State, id: nat)
    requires Inv(cfg, s) && Enabled(s, Store(id))
    ensures Inv(cfg, Apply(cfg, s, Store(id)))
  {
    var t := s.tasks[id];
    assert TaskOk(s, t);
    TaskStepKeeps(cfg, s, id, Answered(Some(t.phase.entry)));
    var s1 := s.(tasks := s.tasks[id := t.(phase := Answered(Some(t.phase.entry)))]);
    InsertBounded(cfg, s.cache, t.key, t.phase.entry, t.phase.epoch);
    SlotsFrom(cfg, s.cache, t.key, 0, t.phase.entry, t.phase.epoch, []);
    var c := R.Insert(cfg, s.cache, t.key, t.phase.entry, t.phase.epoch);
    forall slot | slot in c.slots ensures SlotOk(s1, slot) {
      if slot in s.cache.slots {
        assert SlotOk(s, slot);
      }
    }
    CacheStepKeeps(cfg, s1, c);
  }

  lemma CommitKeeps(cfg: Config, s: State, paths: seq<string>, tree: Tree)
    requires Inv(cfg, s) && Enabled(s, Commit(paths, tree))
    ensures Inv(cfg, Apply(cfg, s, Commit(paths, tree)))
  {
    var r := Apply(cfg, s, Commit(paths, tree));
    assert InvalidatedWrites(r.writes) == InvalidatedWrites(s.writes);
    assert forall j :: 0 <= j < |s.writes| ==> r.writes[j] == s.writes[j];
    forall i | i in r.tasks ensures TaskOk(r, r.tasks[i]) {
      var t := s.tasks[i];
      assert TaskOk(s, t);
      if t.phase.Generated? {
        FaithfulGrows(s.trees, tree, t.key, t.phase.entry.body);
      } else if t.phase.Answered? && t.phase.answer.Some? {
        FaithfulGrows(s.trees, tree, t.key, t.phase.answer.value.body);
      }
    }
    forall slot | slot in r.cache.slots ensures SlotOk(r, slot) {
      assert SlotOk(s, slot);
      FaithfulGrows(s.trees, tree, slot.key, slot.entry.body);
    }
  }

  lemma InvalidateKeeps(cfg: Config, s: State, j: nat)
    requires Inv(cfg, s) && Enabled(s, InvalidateWrite(j))
    ensures Inv(cfg, Apply(cfg, s, InvalidateWrite(j)))
  {
    var r := Apply(cfg, s, InvalidateWrite(j));
    var paths := s.writes[j].paths;
    InvalidateBounded(cfg, s.cache, paths);
    SlotsFrom(cfg, s.cache, "", 0, Entry(Listing(0, map[]), 0, 0), 0, paths);
    assert forall i :: 0 <= i < |s.writes| ==> r.writes[i].paths == s.writes[i].paths;
    assert InvalidatedWrites(s.writes) <= InvalidatedWrites(r.writes);
    forall slot | slot in r.cache.slots ensures SlotOk(r, slot) {
      assert SlotOk(s, slot);
    }
    forall i | i in r.tasks ensures TaskOk(r, r.tasks[i]) {
      assert TaskOk(s, s.tasks[i]);
    }
  }

  lemma ClearKeeps(cfg: Config, s: State)
    requires Inv(cfg, s)
    ensures Inv(cfg, Apply(cfg, s, Clear))
  {
    var r := Apply(cfg, s, Clear);
    forall i | i in r.tasks ensures TaskOk(r, r.tasks[i]) {
      assert TaskOk(s, s.tasks[i]);
    }
  }

  lemma BeginKeeps(cfg: Config, s: State, id: nat, key: string)
    requires Inv(cfg, s) && id !in s.tasks
    ensures Inv(cfg, Apply(cfg, s, Begin(id, key)))
  {
    var r := Apply(cfg, s, Begin(id, key));
    forall i | i in r.tasks ensures TaskOk(r, r.tasks[i]) {
      if i != id {
        assert TaskOk(s, s.tasks[i]);
      }
    }
    forall slot | slot in r.cache.slots ensures SlotOk(r, slot) {
      assert SlotOk(s, slot);
    }
    forall k | k in r.cache.refreshing
      ensures exists i :: i in r.tasks && r.tasks[i].background && r.tasks[i].key == k
    {
      var i :| i in s.tasks && s.tasks[i].background && s.tasks[i].key == k;
      assert r.tasks[i] == s.tasks[i];
    }
  }

  lemma EndRefreshKeeps(cfg: Config, s: State, id: nat)
    requires Inv(cfg, s) && Enabled(s, EndRefresh(id))
    ensures Inv(cfg, Apply(cfg, s, EndRefresh(id)))
  {
    var r := Apply(cfg, s, EndRefresh(id));
    forall i | i in r.tasks ensures TaskOk(r, r.tasks[i]) {
      assert TaskOk(s, s.tasks[i]);
    }
    forall slot | slot in r.cache.slots ensures SlotOk(r, slot) {
      assert SlotOk(s, slot);
    }
    forall k | k in r.cache.refreshing
      ensures exists i :: i in r.tasks && r.tasks[i].background && r.tasks[i].key == k
    {
      var i :| i in s.tasks && s.tasks[i].background && s.tasks[i].key == k;
      assert r.tasks[i] == s.tasks[i];
    }
  }

  lemma GenerationKeeps(cfg: Config, s: State, a: Action)
    requires Inv(cfg, s) && Enabled(s, a)
    requires a.ReadEpoch? || a.Start? || a.Finish?
    ensures Inv(cfg, Apply(cfg, s, a))
  {
    var t := s.tasks[a.id];
    assert TaskOk(s, t);
    match a
    case ReadEpoch(id) => TaskStepKeeps(cfg, s, id, HasEpoch(s.cache.epoch));
    case Start(id) => TaskStepKeeps(cfg, s, id, Generating(t.phase.epoch, |s.writes|));
    case Finish(id, result) =>
      TaskStepKeeps(cfg, s, id, if result.Some? then Generated(t.phase.epoch, result.value) else Answered(None));
  }

  lemma NextKeeps(cfg: Config, s: State, a: Action)
    requires Inv(cfg, s)
    ensures Inv(cfg, Next(cfg, s, a))
  {
    if Enabled(s, a) {
      match a
      case Begin(id, key) => BeginKeeps(cfg, s, id, key);
      case Look(id, now, spawned) => LookKeeps(cfg, s, id, now, spawned);
      case ReadEpoch(id) => GenerationKeeps(cfg, s, a);
      case Start(id) => GenerationKeeps(cfg, s, a);
      case Finish(id, result) => GenerationKeeps(cfg, s, a);
      case Store(id) => StoreKeeps(cfg, s, id);
      case EndRefresh(id) => EndRefreshKeeps(cfg, s, id);
      case Commit(paths, tree) => CommitKeeps(cfg, s, paths, tree);
      case InvalidateWrite(j) => InvalidateKeeps(cfg, s, j);
      case Clear => ClearKeeps(cfg, s);
      case RefreshEverything(ids) => SpawnKeeps(cfg, s, ids);
      case StopCache => CacheStepKeeps(cfg, s, R.Stop(s.cache));
    }
  }

  lemma {:induction false} RunKeeps(cfg: Config, s: State, actions: seq<Action>)
    requires Inv(cfg, s)
    ensures Inv(cfg, Run(cfg, s, actions))
    decreases |actions|
  {
    if actions != [] {
      NextKeeps(cfg, s, actions[0]);
      RunKeeps(cfg, Next(cfg, s, actions[0]), actions[1..]);
    }
  }

  // --- what the protocol promises -------------------------------------------------------

  /** Read-your-writes, over every interleaving. Once write `j` has committed and been invalidated,
      every stored listing that shows a path it touched started after the commit, and so did every
      listing answered to a `get` that began after the invalidation. */
  lemma ReadYourWrites(cfg: Config, tree: Tree, actions: seq<Action>, j: nat)
    requires j < |Run(cfg, Initial(tree), actions).writes|
    ensures var s := Run(cfg, Initial(tree), actions);
      && (s.writes[j].invalidated ==>
            forall slot :: slot in s.cache.slots && Touched(slot.key, s.writes[j].paths) ==> j < slot.entry.body.start)
      && (forall id :: id in s.tasks && s.tasks[id].phase.Answered? && s.tasks[id].phase.answer.Some?
                       && j in s.tasks[id].owed && Touched(s.tasks[id].key, s.writes[j].paths) ==>
            j < s.tasks[id].phase.answer.value.body.start)
  {
    RunKeeps(cfg, Initial(tree), actions);
    var s := Run(cfg, Initial(tree), actions);
    forall slot | slot in s.cache.slots ensures SlotOk(s, slot) {
    }
    forall id | id in s.tasks ensures TaskOk(s, s.tasks[id]) {
    }
  }

  lemma {:induction false} UntouchedSince(s: State, q: string, v: nat)
    requires TreesOk(s) && v < |s.trees|
    requires forall j :: v <= j < |s.writes| ==> !Touched(q, s.writes[j].paths)
    ensures At(s.trees[v], q) == At(CurrentTree(s), q)
    decreases |s.trees| - v
  {
    if v < |s.writes| {
      assert OnlyTouches(s.trees[v], s.trees[v + 1], s.writes[v].paths);
      UntouchedSince(s, q, v + 1);
    }
  }

  /** A write that touches something listed under `key` touches `key`'s listing. */
  lemma TouchedAbove(key: string, q: string, paths: seq<string>)
    requires Paths.IsEqualOrChild(key, q)
    ensures Touched(q, paths) ==> Touched(key, paths)
  {
    if i :| 0 <= i < |paths| && Paths.Related(q, paths[i]) {
      Paths.TouchedBelowIsRelated(key, q, paths[i]);
    }
  }

  /** A faithful listing that started after every write touching it shows the current tree. */
  lemma CaughtUpIsCurrent(s: State, key: string, l: Listing, q: string)
    requires TreesOk(s) && Faithful(s.trees, key, l)
    requires forall j :: 0 <= j < |s.writes| && Touched(key, s.writes[j].paths) ==> j < l.start
    requires Paths.IsEqualOrChild(key, q)
    ensures At(l.seen, q) == At(CurrentTree(s), q)
  {
    assert ReadSince(s.trees, l.start, At(l.seen, q), q);
    var v: nat :| l.start <= v < |s.trees| && At(l.seen, q) == At(s.trees[v], q);
    forall j | v <= j < |s.writes| ensures !Touched(q, s.writes[j].paths) {
      TouchedAbove(key, q, s.writes[j].paths);
    }
    UntouchedSince(s, q, v);
  }

  /** Coherence: whenever no write waits for its invalidation, every stored listing shows exactly
      the current tree below its key, however its generation interleaved with the writes. */
  lemma QuiescentTableIsCurrent(cfg: Config, tree: Tree, actions: seq<Action>, slot: Slot<Listing>, q: string)
    requires slot in Run(cfg, Initial(tree), actions).cache.slots
    requires forall j :: 0 <= j < |Run(cfg, Initial(tree), actions).writes| ==>
               Run(cfg, Initial(tree), actions).writes[j].invalidated
    requires Paths.IsEqualOrChild(slot.key, q)
    ensures var s := Run(cfg, Initial(tree), actions);
      At(slot.entry.body.seen, q) == At(CurrentTree(s), q)
  {
    RunKeeps(cfg, Initial(tree), actions);
    var s := Run(cfg, Initial(tree), actions);
    assert SlotOk(s, slot);
    CaughtUpIsCurrent(s, slot.key, slot.entry.body, q);
  }

  /** A `get` that began after every write so far was invalidated answers the current tree. */
  lemma AnswerIsCurrent(cfg: Config, tree: Tree, actions: seq<Action>, id: nat, q: string)
    requires id in Run(cfg, Initial(tree), actions).tasks
    requires Run(cfg, Initial(tree), actions).tasks[id].phase.Answered?
    requires Run(cfg, Initial(tree), actions).tasks[id].phase.answer.Some?
    requires forall j: nat :: j < |Run(cfg, Initial(tree), actions).writes| ==>
               j in Run(cfg, Initial(tree), actions).tasks[id].owed
    requires Paths.IsEqualOrChild(Run(cfg, Initial(tree), actions).tasks[id].key, q)
    ensures var s := Run(cfg, Initial(tree), actions);
      At(s.tasks[id].phase.answer.value.body.seen, q) == At(CurrentTree(s), q)
  {
    RunKeeps(cfg, Initial(tree), actions);
    var s := Run(cfg, Initial(tree), actions);
    assert TaskOk(s, s.tasks[id]);
    CaughtUpIsCurrent(s, s.tasks[id].key, s.tasks[id].phase.answer.value.body, q);
  }

  /** In every interleaving: one entry per key within the byte budget and the entry limit, and the
      keys being refreshed are exactly those of the refresh tasks alive, at most one per key. */
  lemma TableAlwaysBounded(cfg: Config, tree: Tree, actions: seq<Action>)
    ensures Bounded(cfg, Run(cfg, Initial(tree), actions).cache)
    ensures RefreshOk(Run(cfg, Initial(tree), actions))
  {
    RunKeeps(cfg, Initial(tree), actions);
  }

  /** This step answers task `id` with `e`: a lookup that finds it in the table under the task's key,
      younger than `staleTtl`, or the end of the task's own generation. */
  ghost predicate Answers(cfg: Config, s: State, a: Action, id: nat, e: Entry<Listing>) {
    && Enabled(s, a)
    && match a
       case Look(i, now, _) =>
         i == id && Slot(s.tasks[id].key, e) in s.cache.slots && now - e.generated < cfg.staleTtl
       case Store(i) => i == id && s.tasks[id].phase.entry == e
       case _ => false
  }

  /** Some step of the run answers task `id` with `e`. */
  ghost predicate AnsweredIn(cfg: Config, s: State, actions: seq<Action>, id: nat, e: Entry<Listing>)
    decreases |actions|
  {
    && actions != []
    && (Answers(cfg, s, actions[0], id, e) || AnsweredIn(cfg, Next(cfg, s, actions[0]), actions[1..], id, e))
  }

  ghost predicate HasAnswer(s: State, id: nat, e: Entry<Listing>) {
    id in s.tasks && s.tasks[id].phase == Answered(Some(e))
  }

  lemma OnlyAnswersAnswer(cfg: Config, s: State, a: Action, id: nat, e: Entry<Listing>)
    requires HasAnswer(Next(cfg, s, a), id, e) && !HasAnswer(s, id, e)
    ensures Answers(cfg, s, a, id, e)
  {
  }

  lemma {:induction false} AnswerHasSource(cfg: Config, s: State, actions: seq<Action>, id: nat, e: Entry<Listing>)
    requires HasAnswer(Run(cfg, s, actions), id, e) && !HasAnswer(s, id, e)
    ensures AnsweredIn(cfg, s, actions, id, e)
    decreases |actions|
  {
    var r := Next(cfg, s, actions[0]);
    if HasAnswer(r, id, e) {
      OnlyAnswersAnswer(cfg, s, actions[0], id, e);
    } else {
      AnswerHasSource(cfg, r, actions[1..], id, e);
    }
  }

  /** Nothing stale is ever served: in every run, whatever a task holds as its answer was, at the step
      that gave it, an entry of its key younger than `staleTtl`, or has just been generated for it. */
  lemma StaleNeverServed(cfg: Config, tree: Tree, actions: seq<Action>, id: nat, e: Entry<Listing>)
    requires HasAnswer(Run(cfg, Initial(tree), actions), id, e)
    ensures AnsweredIn(cfg, Initial(tree), actions, id, e)
  {
    AnswerHasSource(cfg, Initial(tree), actions, id, e);
  }

  /** After `stop` nothing is stored: whatever runs on, the table only loses entries. */
  lemma {:induction false} NothingStoredAfterStop(cfg: Config, s: State, actions: seq<Action>, slot: Slot<Listing>)
    requires s.cache.stopped
    requires slot in Run(cfg, s, actions).cache.slots
    ensures slot in s.cache.slots
    decreases |actions|
  {
    if actions != [] {
      var a := actions[0];
      var r := Next(cfg, s, a);
      NothingStoredAfterStop(cfg, r, actions[1..], slot);
      if Enabled(s, a) {
        match a
        case Look(id, now, _) =>
          SlotsFrom(cfg, s.cache, s.tasks[id].key, now, Entry(Listing(0, map[]), 0, 0), 0, []);
        case Store(id) =>
          SlotsFrom(cfg, s.cache, s.tasks[id].key, 0, s.tasks[id].phase.entry, s.tasks[id].phase.epoch, []);
        case InvalidateWrite(j) =>
          SlotsFrom(cfg, s.cache, "", 0, Entry(Listing(0, map[]), 0, 0), 0, s.writes[j].paths);
        case _ =>
      }
    }
  }
}
