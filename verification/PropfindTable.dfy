/**
 The PROPFIND cache's table in place: a hash map whose entries carry the tick of their last use,
 with a running byte count. Proved to refine the recency list.
 */
module PropfindTables {
  import opened Sequences
  import opened Text
  import opened Recency
  import R = Recency

  // --- the table in place ---------------------------------------------------------------

  /** An entry as the hash map holds it, with the tick of its last use. */
  datatype Held<T> = Held(entry: Entry<T>, lastUsed: nat)

  /** `slots` lists exactly the map's entries, by strictly increasing tick, none above `top`. */
  ghost predicate Represents<T>(slots: seq<Slot<T>>, held: map<string, Held<T>>, top: int)
    decreases |slots|
  {
    if slots == [] then held == map[]
    else
      var n := |slots| - 1;
      var s := slots[n];
      && s.key in held
      && held[s.key].entry == s.entry
      && held[s.key].lastUsed <= top
      && Represents(slots[..n], held - {s.key}, held[s.key].lastUsed - 1)
  }

  lemma RaiseTop<T>(slots: seq<Slot<T>>, held: map<string, Held<T>>, low: int, high: int)
    requires Represents(slots, held, low) && low <= high
    ensures Represents(slots, held, high)
  {
  }

  lemma {:induction false} RepresentsKeys<T>(slots: seq<Slot<T>>, held: map<string, Held<T>>, top: int)
    requires Represents(slots, held, top)
    ensures DistinctKeys(slots) && Keys(slots) == held.Keys
    decreases |slots|
  {
    if slots != [] {
      var n := |slots| - 1;
      var s, rest := slots[n], slots[..n];
      RepresentsKeys(rest, held - {s.key}, held[s.key].lastUsed - 1);
      assert slots == rest + [s];
      KeysAppend(rest, s);
      assert held.Keys == (held - {s.key}).Keys + {s.key};
      DistinctAppend(rest, s);
    }
  }

  lemma {:induction false} RepresentsTop<T>(slots: seq<Slot<T>>, held: map<string, Held<T>>, top: int, k: string)
    requires Represents(slots, held, top) && k in held
    ensures held[k].lastUsed <= top
    decreases |slots|
  {
    var n := |slots| - 1;
    var s := slots[n];
    if k != s.key {
      RepresentsTop(slots[..n], held - {s.key}, held[s.key].lastUsed - 1, k);
    }
  }

  /** The head of the list is the entry used longest ago. */
  lemma {:induction false} RepresentsFirst<T>(slots: seq<Slot<T>>, held: map<string, Held<T>>, top: int, k: string)
    requires Represents(slots, held, top) && k in held
    ensures slots != [] && slots[0].key in held
    ensures k != slots[0].key ==> held[slots[0].key].lastUsed < held[k].lastUsed
    decreases |slots|
  {
    var n := |slots| - 1;
    var s, rest, h := slots[n], slots[..n], held - {slots[n].key};
    assert k != s.key ==> k in h;
    if n > 0 {
      RepresentsKeys(rest, h, held[s.key].lastUsed - 1);
      assert rest[0].key in Keys(rest);
      if k != s.key {
        RepresentsFirst(rest, h, held[s.key].lastUsed - 1, k);
      } else {
        RepresentsTop(rest, h, held[s.key].lastUsed - 1, rest[0].key);
      }
    }
  }

  lemma RepresentsFind<T>(slots: seq<Slot<T>>, held: map<string, Held<T>>, top: int, key: string)
    requires Represents(slots, held, top)
    ensures Find(slots, key) == if key in held then Some(held[key].entry) else None
    ensures |held| == |slots|
    ensures key in held ==> Slot(key, held[key].entry) in slots
  {
    RepresentsKeys(slots, held, top);
    KeysCount(slots);
    assert |held.Keys| == |held|;
    if key in held {
      RepresentsMember(slots, held, top, key);
      FindMember(slots, Slot(key, held[key].entry));
    }
  }

  lemma {:induction false} RepresentsMember<T>(slots: seq<Slot<T>>, held: map<string, Held<T>>, top: int, key: string)
    requires Represents(slots, held, top) && key in held
    ensures Slot(key, held[key].entry) in slots
    decreases |slots|
  {
    var n := |slots| - 1;
    var s := slots[n];
    if s.key != key {
      RepresentsMember(slots[..n], held - {s.key}, held[s.key].lastUsed - 1, key);
      assert slots == slots[..n] + [s];
    }
  }

  /** Dropping keys from the list and from the map keeps them in step. */
  lemma WithoutBoth<V>(m: map<string, V>, key: string, keys: set<string>)
    ensures (m - {key}) - keys == (m - keys) - {key}
    ensures key in keys ==> (m - {key}) - keys == m - keys
  {
  }

  /** One more entry at the recent end, under a newer tick. */
  lemma RepresentsPush<T>(rest: seq<Slot<T>>, s: Slot<T>, held: map<string, Held<T>>, top: int)
    requires s.key in held && held[s.key].entry == s.entry && held[s.key].lastUsed <= top
    requires Represents(rest, held - {s.key}, held[s.key].lastUsed - 1)
    ensures Represents(rest + [s], held, top)
  {
    FrontOfPush(rest, s);
  }

  lemma {:induction false} DropRepresents<T>(slots: seq<Slot<T>>, held: map<string, Held<T>>, top: int,
                                             keys: set<string>)
    requires Represents(slots, held, top)
    ensures Represents(Drop(slots, keys), held - keys, top)
    decreases |slots|
  {
    if slots == [] {
      assert held - keys == map[];
    } else {
      var n := |slots| - 1;
      var s, rest := slots[n], slots[..n];
      var last: int := held[s.key].lastUsed;
      DropRepresents(rest, held - {s.key}, last - 1, keys);
      WithoutBoth(held, s.key, keys);
      FrontAndLast(slots);
      DropAppend(rest, s, keys);
      DropLast(Drop(rest, keys), s, held, keys, top);
    }
  }

  lemma DropLast<T>(dropped: seq<Slot<T>>, s: Slot<T>, held: map<string, Held<T>>, keys: set<string>, top: int)
    requires s.key in held && held[s.key].entry == s.entry && held[s.key].lastUsed <= top
    requires Represents(dropped, (held - keys) - {s.key}, held[s.key].lastUsed - 1)
    ensures Represents(dropped + if s.key in keys then [] else [s], held - keys, top)
  {
    if s.key in keys {
      assert dropped + [] == dropped && (held - keys) - {s.key} == held - keys;
      RaiseTop(dropped, held - keys, held[s.key].lastUsed - 1, top);
    } else {
      RepresentsPush(dropped, s, held - keys, top);
    }
  }

  /** Putting a key that is not there at the recent end, under a newer tick. */
  lemma AppendRepresents<T>(slots: seq<Slot<T>>, held: map<string, Held<T>>, tick: nat, key: string, entry: Entry<T>)
    requires Represents(slots, held, tick) && key !in held
    ensures Represents(slots + [Slot(key, entry)], held[key := Held(entry, tick + 1)], tick + 1)
  {
    var s, h := slots + [Slot(key, entry)], held[key := Held(entry, tick + 1)];
    assert s[..|s| - 1] == slots;
    assert h - {key} == held;
  }

  /** Using an entry moves it to the recent end. */
  lemma TouchRepresents<T>(slots: seq<Slot<T>>, held: map<string, Held<T>>, tick: nat, key: string)
    requires Represents(slots, held, tick) && key in held
    ensures var s := Drop(slots, {key}) + [Slot(key, held[key].entry)];
      Represents(s, held[key := Held(held[key].entry, tick + 1)], tick + 1) && Bytes(s) == Bytes(slots)
  {
    var entry := held[key].entry;
    DropRepresents(slots, held, tick, {key});
    AppendRepresents(Drop(slots, {key}), held - {key}, tick, key, entry);
    assert held[key := Held(entry, tick + 1)] == (held - {key})[key := Held(entry, tick + 1)];
    RepresentsKeys(slots, held, tick);
    RepresentsMember(slots, held, tick, key);
    DropOneBytes(slots, Slot(key, entry));
    BytesAppend(Drop(slots, {key}), Slot(key, entry));
  }

  /** Taking an entry out lowers the byte count by its size. */
  lemma RemoveRepresents<T>(slots: seq<Slot<T>>, held: map<string, Held<T>>, tick: nat, key: string)
    requires Represents(slots, held, tick)
    ensures Represents(Drop(slots, {key}), held - {key}, tick)
    ensures Bytes(Drop(slots, {key})) == Bytes(slots) - if key in held then held[key].entry.size else 0
    ensures key !in held ==> held - {key} == held
  {
    DropRepresents(slots, held, tick, {key});
    RepresentsKeys(slots, held, tick);
    if key in held {
      RepresentsMember(slots, held, tick, key);
      DropOneBytes(slots, Slot(key, held[key].entry));
    } else {
      DropNothing(slots, {key});
    }
  }

  class PropfindTable<T(==)> {
    const cfg: Config
    var entries: map<string, Held<T>>
    var bytes: nat
    var tick: nat
    var epoch: nat
    var refreshing: set<string>
    var stopped: bool
    /** The recency list this table stands for. */
    ghost var slots: seq<Slot<T>>

    ghost predicate Valid()
      reads this
    {
      Represents(slots, entries, tick) && bytes == Bytes(slots)
    }

    ghost function View(): Cache<T>
      reads this
    {
      Cache(slots, epoch, refreshing, stopped)
    }

    constructor (cfg: Config)
      ensures Valid() && View() == Empty() && this.cfg == cfg
    {
      this.cfg := cfg;
      entries, bytes, tick, epoch, refreshing, stopped := map[], 0, 0, 0, {}, false;
      slots := [];
    }

    /** Take `key` out, keeping `bytes` in step. */
    method Remove(key: string)
      requires Valid()
      modifies this`entries, this`bytes, this`slots
      ensures Valid() && slots == Drop(old(slots), {key}) && entries == old(entries) - {key}
    {
      RemoveRepresents(slots, entries, tick, key);
      if key in entries {
        bytes := bytes - entries[key].entry.size;
        entries := entries - {key};
      }
      slots := Drop(slots, {key});
    }

    /** Remove the entry used longest ago. */
    method EvictOne()
      requires Valid() && entries != map[]
      modifies this`entries, this`bytes, this`slots
      ensures Valid() && old(slots) != [] && slots == old(slots)[1..] && entries.Keys < old(entries.Keys)
    {
      RepresentsKeys(slots, entries, tick);
      forall k | k in entries
        ensures slots != [] && slots[0].key in entries
        ensures k != slots[0].key ==> entries[slots[0].key].lastUsed < entries[k].lastUsed
      {
        RepresentsFirst(slots, entries, tick, k);
      }
      var some :| some in entries;
      var victim :| victim in entries && forall k :: k in entries ==> entries[victim].lastUsed <= entries[k].lastUsed;
      assert victim == slots[0].key;
      DropFirst(slots);
      Remove(victim);
    }

    /** Evict until `size` more bytes and one more entry fit, or nothing is left. */
    method MakeRoom(size: nat)
      requires Valid()
      modifies this`entries, this`bytes, this`slots
      ensures Valid() && slots == Shrink(cfg, old(slots), size) && entries.Keys <= old(entries.Keys)
    {
      RepresentsFind(slots, entries, tick, "");
      while (bytes + size > cfg.budgetBytes || |entries| >= cfg.maxEntries) && entries != map[]
        invariant Valid() && entries.Keys <= old(entries.Keys) && |entries| == |slots|
        invariant Shrink(cfg, slots, size) == Shrink(cfg, old(slots), size)
        decreases |slots|
      {
        EvictOne();
        RepresentsFind(slots, entries, tick, "");
      }
    }

    /** Store a finished generation, unless an invalidation raced it. */
    method Insert(key: string, entry: Entry<T>, epoch: nat)
      requires Valid()
      modifies this`entries, this`bytes, this`tick, this`slots
      ensures Valid() && View() == R.Insert(cfg, old(View()), key, entry, epoch)
    {
      if stopped || this.epoch != epoch {
        return;
      }
      if entry.size > cfg.budgetBytes {
        return;
      }
      Remove(key);
      MakeRoom(entry.size);
      Append(key, entry);
    }

    /** Put a new entry at the recent end. */
    method Append(key: string, entry: Entry<T>)
      requires Valid() && key !in entries
      modifies this`entries, this`bytes, this`tick, this`slots
      ensures Valid() && slots == old(slots) + [Slot(key, entry)]
    {
      AppendRepresents(slots, entries, tick, key, entry);
      BytesAppend(slots, Slot(key, entry));
      tick := tick + 1;
      bytes := bytes + entry.size;
      entries := entries[key := Held(entry, tick)];
      slots := slots + [Slot(key, entry)];
    }

    /** The entry to answer with, if one is young enough; `refresh` asks the caller to spawn a task. */
    method LookupFresh(key: string, now: int) returns (hit: Option<Entry<T>>, refresh: bool)
      requires Valid()
      modifies this`entries, this`tick, this`refreshing, this`slots
      ensures Valid() && View() == Lookup(cfg, old(View()), key, now)
      ensures hit == Servable(cfg, old(View()), key, now)
      ensures refresh == StartsRefresh(cfg, old(View()), key, now)
    {
      RepresentsFind(slots, entries, tick, key);
      tick := tick + 1;
      RaiseTop(slots, entries, tick - 1, tick);
      if key !in entries {
        return None, false;
      }
      var entry := entries[key].entry;
      var age := now - entry.generated;
      if age >= cfg.staleTtl {
        return None, false;
      }
      Touch(key);
      hit := Some(entry);
      refresh := age >= cfg.ttl && key !in refreshing;
      if refresh {
        refreshing := refreshing + {key};
      }
    }

    /** Move an entry to the recent end, under the newest tick. */
    method Touch(key: string)
      requires tick > 0 && Represents(slots, entries, tick - 1) && bytes == Bytes(slots) && key in entries
      modifies this`entries, this`slots
      ensures Valid() && slots == Drop(old(slots), {key}) + [Slot(key, old(entries)[key].entry)]
    {
      TouchRepresents(slots, entries, tick - 1, key);
      slots := Drop(slots, {key}) + [Slot(key, entries[key].entry)];
      entries := entries[key := Held(entries[key].entry, tick)];
    }

    method RemoveAll(keys: set<string>)
      requires Valid()
      modifies this`entries, this`bytes, this`slots
      ensures Valid() && slots == Drop(old(slots), keys)
    {
      var todo, gone: set<string> := keys, {};
      DropNothing(slots, {});
      while todo != {}
        invariant Valid() && slots == Drop(old(slots), gone) && keys == gone + todo
        decreases |todo|
      {
        var k :| k in todo;
        DropTwice(old(slots), gone, {k});
        Remove(k);
        todo, gone := todo - {k}, gone + {k};
      }
      assert keys == gone;
    }

    /** Forget whatever a write to `paths` can have changed. */
    method InvalidatePaths(paths: seq<string>)
      requires Valid()
      modifies this`entries, this`bytes, this`epoch, this`slots
      ensures Valid() && View() == R.InvalidatePaths(old(View()), paths)
    {
      RepresentsKeys(slots, entries, tick);
      epoch := epoch + 1;
      RemoveAll(TouchedKeys(entries.Keys, paths));
    }

    /** Forget all entries. */
    method Invalidate()
      requires Valid()
      modifies this`entries, this`bytes, this`epoch, this`slots
      ensures Valid() && View() == InvalidateAll(old(View()))
    {
      epoch := epoch + 1;
      entries, bytes, slots := map[], 0, [];
    }

    /** The keys to refresh in the background, marked as being refreshed. */
    method RefreshAll() returns (keys: set<string>)
      requires Valid()
      modifies this`refreshing
      ensures Valid() && View() == R.RefreshAll(old(View())) && keys == ToRefresh(old(View()))
    {
      RepresentsKeys(slots, entries, tick);
      keys := entries.Keys - refreshing;
      refreshing := refreshing + keys;
    }

    method RefreshDone(key: string)
      requires Valid()
      modifies this`refreshing
      ensures Valid() && View() == R.RefreshDone(old(View()), key)
    {
      refreshing := refreshing - {key};
    }

    method Stop()
      requires Valid()
      modifies this`stopped
      ensures Valid() && View() == R.Stop(old(View()))
    {
      stopped := true;
    }
  }
}
