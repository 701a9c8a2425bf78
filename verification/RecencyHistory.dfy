/**
 The recency list told from the history of calls: which listings are held, in which order, and which one
 makes room for another.
 */
module RecencyHistory {
  import opened Sequences
  import opened Text
  import opened Recency
  import R = Recency
  import Paths

  // --- one lookup -----------------------------------------------------------------------

  /** An entry is held under `key` and is younger than `limit`. */
  predicate HeldYounger<T(==)>(slots: seq<Slot<T>>, key: string, now: int, limit: int) {
    exists i :: 0 <= i < |slots| && slots[i].key == key && now - slots[i].entry.generated < limit
  }

  predicate Precedes<T(==)>(slots: seq<Slot<T>>, a: Slot<T>, b: Slot<T>) {
    exists i, j :: 0 <= i < j < |slots| && slots[i] == a && slots[j] == b
  }

  lemma SlotIsFound<T>(slots: seq<Slot<T>>, i: nat)
    requires DistinctKeys(slots) && i < |slots|
    ensures Find(slots, slots[i].key) == Some(slots[i].entry)
  {
    FindMember(slots, slots[i]);
  }

  /** A lookup hits exactly when an entry of the key is younger than `staleTtl`. It starts a refresh exactly
      when that entry is `ttl` old or older and none runs for the key. */
  lemma HitIff<T>(cfg: Config, c: Cache<T>, key: string, now: int)
    requires DistinctKeys(c.slots)
    ensures Servable(cfg, c, key, now).Some? <==> HeldYounger(c.slots, key, now, cfg.staleTtl)
    ensures StartsRefresh(cfg, c, key, now) <==>
      && HeldYounger(c.slots, key, now, cfg.staleTtl) && !HeldYounger(c.slots, key, now, cfg.ttl)
      && key !in c.refreshing
  {
    forall i | 0 <= i < |c.slots| && c.slots[i].key == key ensures Find(c.slots, key) == Some(c.slots[i].entry) {
      SlotIsFound(c.slots, i);
    }
    if Find(c.slots, key).Some? {
      var e := Find(c.slots, key).value;
      var i :| 0 <= i < |c.slots| && c.slots[i] == Slot(key, e);
      assert now - e.generated < cfg.staleTtl ==> HeldYounger(c.slots, key, now, cfg.staleTtl);
    }
  }

  lemma {:induction false} DropPrecedes<T>(slots: seq<Slot<T>>, keys: set<string>, a: Slot<T>, b: Slot<T>)
    requires a.key !in keys && b.key !in keys
    ensures Precedes(Drop(slots, keys), a, b) <==> Precedes(slots, a, b)
  {
    if slots != [] {
      var rest := slots[1..];
      DropPrecedes(rest, keys, a, b);
      FrontPrecedes(slots[0], rest, a, b);
      if slots[0].key !in keys {
        FrontPrecedes(slots[0], Drop(rest, keys), a, b);
        DropMember(rest, keys, b);
      } else {
        assert Drop(slots, keys) == Drop(rest, keys);
      }
      assert slots == [slots[0]] + rest;
    }
  }

  lemma FrontPrecedes<T>(s: Slot<T>, rest: seq<Slot<T>>, a: Slot<T>, b: Slot<T>)
    ensures Precedes([s] + rest, a, b) <==> Precedes(rest, a, b) || (s == a && b in rest)
  {
    var all := [s] + rest;
    if i, j :| 0 <= i < j < |all| && all[i] == a && all[j] == b {
      assert rest[j - 1] == b;
      assert i > 0 ==> rest[i - 1] == a;
    }
    if i, j :| 0 <= i < j < |rest| && rest[i] == a && rest[j] == b {
      assert all[i + 1] == a && all[j + 1] == b;
    }
    if s == a && b in rest {
      var j :| 0 <= j < |rest| && rest[j] == b;
      assert all[0] == a && all[j + 1] == b;
    }
  }

  lemma BackPrecedes<T>(slots: seq<Slot<T>>, s: Slot<T>, a: Slot<T>, b: Slot<T>)
    requires b != s
    ensures Precedes(slots + [s], a, b) <==> Precedes(slots, a, b)
  {
    var all := slots + [s];
    if i, j :| 0 <= i < j < |all| && all[i] == a && all[j] == b {
      assert slots[i] == a && slots[j] == b;
    }
    if i, j :| 0 <= i < j < |slots| && slots[i] == a && slots[j] == b {
      assert all[i] == a && all[j] == b;
    }
  }

  /** A hit makes the entry served the most recently used one; the slots are the same, and any two others
      stay in order. A miss changes nothing. */
  lemma LookupMoves<T>(cfg: Config, c: Cache<T>, key: string, now: int)
    requires DistinctKeys(c.slots)
    ensures var d := R.Lookup(cfg, c, key, now);
      if HeldYounger(c.slots, key, now, cfg.staleTtl) then
        && d.slots != [] && d.slots[|d.slots| - 1].key == key && |d.slots| == |c.slots|
        && (forall s :: s in d.slots <==> s in c.slots)
        && (forall a: Slot<T>, b: Slot<T> :: a.key != key && b.key != key ==>
              (Precedes(d.slots, a, b) <==> Precedes(c.slots, a, b)))
        && d.epoch == c.epoch && d.stopped == c.stopped
        && d.refreshing == c.refreshing + if HeldYounger(c.slots, key, now, cfg.ttl) then {} else {key}
      else d == c
  {
    HitIff(cfg, c, key, now);
    var e := Servable(cfg, c, key, now);
    if e.Some? {
      var s, d := Slot(key, e.value), R.Lookup(cfg, c, key, now);
      var others := Drop(c.slots, {key});
      assert d.slots == others + [s];
      DropOneBytes(c.slots, s);
      forall x ensures x in d.slots <==> x in c.slots {
        DropMember(c.slots, {key}, x);
        if x in c.slots && x.key == key {
          FindMember(c.slots, x);
        }
      }
      forall a: Slot<T>, b: Slot<T> | a.key != key && b.key != key
        ensures Precedes(d.slots, a, b) <==> Precedes(c.slots, a, b)
      {
        BackPrecedes(others, s, a, b);
        DropPrecedes(c.slots, {key}, a, b);
      }
    }
  }

  // --- the calls so far -----------------------------------------------------------------

  datatype Call<T> =
    | Store(key: string, entry: Entry<T>, epoch: nat)
    | Ask(key: string, now: int)
    | Wrote(paths: seq<string>)
    | Clear
    | RefreshEach
    | Refreshed(key: string)
    | Halt

  function Step<T>(cfg: Config, c: Cache<T>, call: Call<T>): Cache<T> {
    match call
    case Store(key, entry, epoch) => R.Insert(cfg, c, key, entry, epoch)
    case Ask(key, now) => R.Lookup(cfg, c, key, now)
    case Wrote(paths) => R.InvalidatePaths(c, paths)
    case Clear => R.InvalidateAll(c)
    case RefreshEach => R.RefreshAll(c)
    case Refreshed(key) => R.RefreshDone(c, key)
    case Halt => R.Stop(c)
  }

  /** The cache after calls from the start. */
  function After<T>(cfg: Config, calls: seq<Call<T>>): Cache<T> {
    if calls == [] then Empty() else Step(cfg, After(cfg, calls[..|calls| - 1]), calls[|calls| - 1])
  }

  function Invalidations<T>(calls: seq<Call<T>>): nat {
    if calls == [] then 0
    else
      var call := calls[|calls| - 1];
      Invalidations(calls[..|calls| - 1]) + if call.Wrote? || call.Clear? then 1 else 0
  }

  predicate Halted<T(==)>(calls: seq<Call<T>>) {
    exists i :: 0 <= i < |calls| && calls[i].Halt?
  }

  /** A listing is stored unless the cache was stopped, a write or clearing came after its epoch was read,
      or it is larger than the budget. */
  predicate Stores<T(==)>(cfg: Config, before: seq<Call<T>>, call: Call<T>) {
    call.Store? && !Halted(before) && call.epoch == Invalidations(before) && call.entry.size <= cfg.budgetBytes
  }

  /** A call uses a key when it stores a listing for it or is answered with the one held. */
  predicate Uses<T(==)>(cfg: Config, before: seq<Call<T>>, call: Call<T>, key: string) {
    match call
    case Store(k, _, _) => k == key && Stores(cfg, before, call)
    case Ask(k, now) => k == key && HeldYounger(After(cfg, before).slots, key, now, cfg.staleTtl)
    case _ => false
  }

  /** How many calls there were up to the last one that used the key; 0 when none did. */
  function LastUse<T(==)>(cfg: Config, calls: seq<Call<T>>, key: string): nat {
    if calls == [] then 0
    else
      var n := |calls| - 1;
      if Uses(cfg, calls[..n], calls[n], key) then n + 1 else LastUse(cfg, calls[..n], key)
  }

  /** The listing stored last for the key. */
  function LastStored<T(==)>(cfg: Config, calls: seq<Call<T>>, key: string): Option<Entry<T>> {
    if calls == [] then None
    else
      var n := |calls| - 1;
      if calls[n].Store? && calls[n].key == key && Stores(cfg, calls[..n], calls[n]) then Some(calls[n].entry)
      else LastStored(cfg, calls[..n], key)
  }

  lemma {:induction false} LastUseBound<T>(cfg: Config, calls: seq<Call<T>>, key: string)
    ensures LastUse(cfg, calls, key) <= |calls|
    decreases |calls|
  {
    if calls != [] {
      LastUseBound(cfg, calls[..|calls| - 1], key);
    }
  }

  lemma {:induction false} EpochIsCount<T>(cfg: Config, calls: seq<Call<T>>)
    ensures After(cfg, calls).epoch == Invalidations(calls) && After(cfg, calls).stopped == Halted(calls)
    decreases |calls|
  {
    if calls != [] {
      var n := |calls| - 1;
      EpochIsCount(cfg, calls[..n]);
      assert Halted(calls) <==> Halted(calls[..n]) || calls[n].Halt? by {
        if i :| 0 <= i < n && calls[..n][i].Halt? {
          assert calls[i].Halt?;
        }
        if i :| 0 <= i < |calls| && calls[i].Halt? {
          assert i < n ==> calls[..n][i].Halt?;
        }
      }
    }
  }

  // --- the order held -------------------------------------------------------------------

  /** From the least to the most recently used, each under the listing stored last for its key. */
  predicate Told<T(==)>(cfg: Config, calls: seq<Call<T>>, slots: seq<Slot<T>>) {
    && (forall i :: 0 <= i < |slots| ==> SlotTold(cfg, calls, slots[i]))
    && (forall i, j :: 0 <= i < j < |slots| ==> LastUse(cfg, calls, slots[i].key) < LastUse(cfg, calls, slots[j].key))
  }

  predicate SlotTold<T(==)>(cfg: Config, calls: seq<Call<T>>, s: Slot<T>) {
    0 < LastUse(cfg, calls, s.key) && LastStored(cfg, calls, s.key) == Some(s.entry)
  }

  lemma ToldDistinct<T>(cfg: Config, calls: seq<Call<T>>, slots: seq<Slot<T>>)
    requires Told(cfg, calls, slots)
    ensures DistinctKeys(slots)
  {
  }

  lemma {:induction false} DropTold<T>(cfg: Config, calls: seq<Call<T>>, slots: seq<Slot<T>>, keys: set<string>)
    requires Told(cfg, calls, slots)
    ensures Told(cfg, calls, Drop(slots, keys))
    decreases |slots|
  {
    if slots != [] {
      var rest := slots[1..];
      assert forall i :: 0 <= i < |rest| ==> rest[i] == slots[i + 1];
      DropTold(cfg, calls, rest, keys);
      if slots[0].key !in keys {
        var kept := Drop(rest, keys);
        forall i | 0 <= i < |kept|
          ensures LastUse(cfg, calls, slots[0].key) < LastUse(cfg, calls, kept[i].key)
        {
          DropMember(rest, keys, kept[i]);
          var j :| 0 <= j < |rest| && rest[j] == kept[i];
          assert slots[j + 1] == kept[i];
        }
      }
    }
  }

  lemma TailTold<T>(cfg: Config, calls: seq<Call<T>>, slots: seq<Slot<T>>, n: nat)
    requires Told(cfg, calls, slots) && n <= |slots|
    ensures Told(cfg, calls, slots[n..])
  {
    assert forall i :: 0 <= i < |slots| - n ==> slots[n..][i] == slots[n + i];
  }

  /** A call that uses none of the keys held leaves what is told of them. */
  lemma StillTold<T>(cfg: Config, calls: seq<Call<T>>, call: Call<T>, slots: seq<Slot<T>>)
    requires Told(cfg, calls, slots)
    requires forall i :: 0 <= i < |slots| ==> !Uses(cfg, calls, call, slots[i].key)
    ensures Told(cfg, calls + [call], slots)
  {
    FrontOfPush(calls, call);
    forall i | 0 <= i < |slots|
      ensures LastUse(cfg, calls + [call], slots[i].key) == LastUse(cfg, calls, slots[i].key)
      ensures LastStored(cfg, calls + [call], slots[i].key) == LastStored(cfg, calls, slots[i].key)
    {
    }
  }

  /** The slot used last goes to the end. */
  lemma PushTold<T>(cfg: Config, calls: seq<Call<T>>, call: Call<T>, others: seq<Slot<T>>, s: Slot<T>)
    requires Told(cfg, calls, others) && Uses(cfg, calls, call, s.key)
    requires forall i :: 0 <= i < |others| ==> others[i].key != s.key
    requires LastStored(cfg, calls + [call], s.key) == Some(s.entry)
    ensures Told(cfg, calls + [call], others + [s])
  {
    StillTold(cfg, calls, call, others);
    FrontOfPush(calls, call);
    forall i | 0 <= i < |others| ensures LastUse(cfg, calls + [call], others[i].key) <= |calls| {
      assert !Uses(cfg, calls, call, others[i].key);
      LastUseBound(cfg, calls, others[i].key);
    }
  }

  lemma OthersDiffer<T>(slots: seq<Slot<T>>, key: string)
    ensures forall i :: 0 <= i < |Drop(slots, {key})| ==> Drop(slots, {key})[i].key != key
  {
    forall i | 0 <= i < |Drop(slots, {key})| ensures Drop(slots, {key})[i].key != key {
      DropMember(slots, {key}, Drop(slots, {key})[i]);
    }
  }

  lemma StoreTold<T>(cfg: Config, calls: seq<Call<T>>, call: Call<T>)
    requires Told(cfg, calls, After(cfg, calls).slots) && Stores(cfg, calls, call)
    ensures Told(cfg, calls + [call], After(cfg, calls + [call]).slots)
  {
    var c := After(cfg, calls);
    var others := Drop(c.slots, {call.key});
    FrontOfPush(calls, call);
    EpochIsCount(cfg, calls);
    DropTold(cfg, calls, c.slots, {call.key});
    OthersDiffer(c.slots, call.key);
    var n := ShrinkDropsShortestPrefix(cfg, others, call.entry.size);
    TailTold(cfg, calls, others, n);
    assert forall i :: 0 <= i < |others| - n ==> others[n..][i] == others[n + i];
    PushTold(cfg, calls, call, others[n..], Slot(call.key, call.entry));
  }

  lemma HitTold<T>(cfg: Config, calls: seq<Call<T>>, call: Call<T>)
    requires Told(cfg, calls, After(cfg, calls).slots) && call.Ask? && Uses(cfg, calls, call, call.key)
    ensures Told(cfg, calls + [call], After(cfg, calls + [call]).slots)
  {
    var c := After(cfg, calls);
    FrontOfPush(calls, call);
    ToldDistinct(cfg, calls, c.slots);
    HitIff(cfg, c, call.key, call.now);
    var s := Slot(call.key, Servable(cfg, c, call.key, call.now).value);
    var i :| 0 <= i < |c.slots| && c.slots[i] == s;
    assert SlotTold(cfg, calls, c.slots[i]);
    DropTold(cfg, calls, c.slots, {call.key});
    OthersDiffer(c.slots, call.key);
    PushTold(cfg, calls, call, Drop(c.slots, {call.key}), s);
  }

  /** A store that is refused and a lookup that misses change nothing. */
  lemma NothingChanges<T>(cfg: Config, calls: seq<Call<T>>, call: Call<T>)
    requires Told(cfg, calls, After(cfg, calls).slots) && (call.Store? || call.Ask?)
    requires !Uses(cfg, calls, call, call.key)
    ensures Step(cfg, After(cfg, calls), call) == After(cfg, calls)
  {
    EpochIsCount(cfg, calls);
    ToldDistinct(cfg, calls, After(cfg, calls).slots);
    if call.Ask? {
      HitIff(cfg, After(cfg, calls), call.key, call.now);
    }
  }

  /** Any other call leaves the slots or takes some out. */
  lemma TakesSome<T>(cfg: Config, c: Cache<T>, call: Call<T>) returns (gone: set<string>)
    requires !call.Store? && !call.Ask?
    ensures Step(cfg, c, call).slots == Drop(c.slots, gone)
  {
    gone := if call.Wrote? then Doomed(c.slots, call.paths) else if call.Clear? then Keys(c.slots) else {};
    if call.Clear? {
      DropAll(c.slots, gone);
    } else if !call.Wrote? {
      DropNothing(c.slots, {});
    }
  }

  lemma {:induction false} DropAll<T>(slots: seq<Slot<T>>, keys: set<string>)
    requires forall i :: 0 <= i < |slots| ==> slots[i].key in keys
    ensures Drop(slots, keys) == []
  {
    if slots != [] {
      DropAll(slots[1..], keys);
    }
  }

  lemma RestTold<T>(cfg: Config, calls: seq<Call<T>>, call: Call<T>)
    requires Told(cfg, calls, After(cfg, calls).slots) && forall key :: !Uses(cfg, calls, call, key)
    ensures Told(cfg, calls + [call], After(cfg, calls + [call]).slots)
  {
    var c := After(cfg, calls);
    FrontOfPush(calls, call);
    StillTold(cfg, calls, call, c.slots);
    if call.Store? || call.Ask? {
      NothingChanges(cfg, calls, call);
    } else {
      var gone := TakesSome(cfg, c, call);
      DropTold(cfg, calls + [call], c.slots, gone);
    }
  }

  /** After any calls the slots stand in the order of the last call that stored or was answered with their
      key, and each holds the listing stored last for it. */
  lemma {:induction false} OrderIsLastUse<T>(cfg: Config, calls: seq<Call<T>>)
    ensures Told(cfg, calls, After(cfg, calls).slots)
    decreases |calls|
  {
    if calls != [] {
      var before, call := calls[..|calls| - 1], calls[|calls| - 1];
      FrontAndLast(calls);
      OrderIsLastUse(cfg, before);
      if call.Store? && Stores(cfg, before, call) {
        StoreTold(cfg, before, call);
      } else if call.Ask? && Uses(cfg, before, call, call.key) {
        HitTold(cfg, before, call);
      } else {
        RestTold(cfg, before, call);
      }
    }
  }

  // --- what is evicted ------------------------------------------------------------------

  /** Another key's slot that a store takes out: every one that it leaves was used later, and without
      taking it out there was no room. */
  lemma EvictedIsOldest<T>(cfg: Config, calls: seq<Call<T>>, call: Call<T>, i: nat)
    requires Stores(cfg, calls, call)
    requires var others := Drop(After(cfg, calls).slots, {call.key});
      i < |others| && others[i] !in After(cfg, calls + [call]).slots
    ensures var others, after := Drop(After(cfg, calls).slots, {call.key}), After(cfg, calls + [call]).slots;
      && !Fits(cfg, others[i..], call.entry.size)
      && forall s :: s in after && s.key != call.key ==>
           s in others && LastUse(cfg, calls, others[i].key) < LastUse(cfg, calls, s.key)
  {
    var c, after := After(cfg, calls), After(cfg, calls + [call]).slots;
    var others := Drop(c.slots, {call.key});
    FrontOfPush(calls, call);
    EpochIsCount(cfg, calls);
    OrderIsLastUse(cfg, calls);
    DropTold(cfg, calls, c.slots, {call.key});
    var n := ShrinkDropsShortestPrefix(cfg, others, call.entry.size);
    assert after == others[n..] + [Slot(call.key, call.entry)];
    assert forall j :: n <= j < |others| ==> after[j - n] == others[j];
    forall s | s in after && s.key != call.key
      ensures s in others && LastUse(cfg, calls, others[i].key) < LastUse(cfg, calls, s.key)
    {
      assert s in others[n..];
      var j :| n <= j < |others| && others[j] == s;
    }
  }

  /** A listing that is stored is found, and so is every one that it does not take out. */
  lemma StoredIsFound<T>(cfg: Config, calls: seq<Call<T>>, call: Call<T>)
    requires call.Store?
    ensures var c, d := After(cfg, calls), After(cfg, calls + [call]);
      if Stores(cfg, calls, call) then
        && Find(d.slots, call.key) == Some(call.entry)
        && (forall s :: s in d.slots ==> Find(d.slots, s.key) == Some(s.entry))
        && (forall s :: s in d.slots && s.key != call.key ==> Find(c.slots, s.key) == Some(s.entry))
      else d == c
  {
    var c, d := After(cfg, calls), After(cfg, calls + [call]);
    FrontOfPush(calls, call);
    EpochIsCount(cfg, calls);
    if Stores(cfg, calls, call) {
      OrderIsLastUse(cfg, calls);
      OrderIsLastUse(cfg, calls + [call]);
      ToldDistinct(cfg, calls, c.slots);
      ToldDistinct(cfg, calls + [call], d.slots);
      assert d.slots[|d.slots| - 1] == Slot(call.key, call.entry);
      forall s | s in d.slots
        ensures Find(d.slots, s.key) == Some(s.entry)
        ensures s.key != call.key ==> Find(c.slots, s.key) == Some(s.entry)
      {
        FindMember(d.slots, s);
        if s.key != call.key {
          KeptWasThere(cfg, c, call, s);
          FindMember(c.slots, s);
        }
      }
    }
  }

  lemma KeptWasThere<T>(cfg: Config, c: Cache<T>, call: Call<T>, s: Slot<T>)
    requires call.Store? && s in Step(cfg, c, call).slots && s.key != call.key
    ensures s in c.slots
  {
    var others := Drop(c.slots, {call.key});
    var n := ShrinkDropsShortestPrefix(cfg, others, call.entry.size);
    DropMember(c.slots, {call.key}, s);
    if s in others[n..] {
      assert s in others;
    }
  }

  // --- invalidations and refreshes ------------------------------------------------------

  /** A write takes out exactly the slots whose key is equal to, above or below a written path; the others
      stay in order, and a new epoch begins. */
  lemma WriteTakesOutIff<T>(c: Cache<T>, paths: seq<string>, s: Slot<T>, t: Slot<T>)
    ensures var d := R.InvalidatePaths(c, paths);
      && (s in d.slots <==> s in c.slots && !exists i :: 0 <= i < |paths| && Paths.Related(s.key, paths[i]))
      && (s in d.slots && t in d.slots ==> (Precedes(d.slots, s, t) <==> Precedes(c.slots, s, t)))
      && d.epoch == c.epoch + 1 && d.refreshing == c.refreshing && d.stopped == c.stopped
  {
    var doomed := Doomed(c.slots, paths);
    DropMember(c.slots, doomed, s);
    DropMember(c.slots, doomed, t);
    KeyHeld(c.slots, s);
    if s.key !in doomed && t.key !in doomed {
      DropPrecedes(c.slots, doomed, s, t);
    }
  }

  lemma KeyHeld<T>(slots: seq<Slot<T>>, s: Slot<T>)
    ensures s in slots ==> s.key in Keys(slots)
  {
  }

  /** Refreshing everything starts a refresh for exactly the keys held that none runs for. */
  lemma RefreshEachSays<T>(c: Cache<T>, key: string)
    ensures var held := exists i :: 0 <= i < |c.slots| && c.slots[i].key == key;
      && (key in ToRefresh(c) <==> held && key !in c.refreshing)
      && (key in R.RefreshAll(c).refreshing <==> key in c.refreshing || held)
      && R.RefreshAll(c).slots == c.slots && R.RefreshAll(c).epoch == c.epoch
  {
  }
}
