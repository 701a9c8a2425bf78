/**
 What the table behind the `Depth: infinity` PROPFIND cache means: a recency list of listings
 (least recently used first) under a byte budget and an entry limit, with an epoch, the keys
 being refreshed in the background and a stop flag.
 */
module Recency {
  import opened Sequences
  import opened Text
  import Paths

  datatype Config = Config(budgetBytes: nat, ttl: int, staleTtl: int, maxEntries: nat)

  /** A compressed listing: its content, its compressed size and when it was generated. */
  datatype Entry<T> = Entry(body: T, size: nat, generated: int)

  datatype Slot<T> = Slot(key: string, entry: Entry<T>)

  /** The abstract cache. `slots` runs from the least to the most recently used. */
  datatype Cache<T> = Cache(slots: seq<Slot<T>>, epoch: nat, refreshing: set<string>, stopped: bool)

  function Empty<T>(): Cache<T> {
    Cache([], 0, {}, false)
  }

  // --- the recency list -----------------------------------------------------------------

  function Bytes<T>(slots: seq<Slot<T>>): nat {
    if slots == [] then 0 else slots[0].entry.size + Bytes(slots[1..])
  }

  function Keys<T>(slots: seq<Slot<T>>): set<string> {
    set i | 0 <= i < |slots| :: slots[i].key
  }

  /** The list without the given keys, order kept. */
  function Drop<T>(slots: seq<Slot<T>>, keys: set<string>): seq<Slot<T>> {
    if slots == [] then []
    else (if slots[0].key in keys then [] else [slots[0]]) + Drop(slots[1..], keys)
  }

  function Find<T>(slots: seq<Slot<T>>, key: string): (r: Option<Entry<T>>)
    ensures r.Some? ==> Slot(key, r.value) in slots
    ensures r.None? ==> forall i :: 0 <= i < |slots| ==> slots[i].key != key
  {
    if slots == [] then None
    else if slots[0].key == key then Some(slots[0].entry)
    else
      var r := Find(slots[1..], key);
      assert r.None? ==> forall i :: 1 <= i < |slots| ==> slots[i] == slots[1..][i - 1];
      r
  }

  predicate Fits<T>(cfg: Config, slots: seq<Slot<T>>, size: nat) {
    Bytes(slots) + size <= cfg.budgetBytes && |slots| < cfg.maxEntries
  }

  /** Drop from the least recently used end until the new size fits or nothing is left. */
  function Shrink<T>(cfg: Config, slots: seq<Slot<T>>, size: nat): seq<Slot<T>> {
    if slots == [] || Fits(cfg, slots, size) then slots else Shrink(cfg, slots[1..], size)
  }

  // --- the calls, on the list -----------------------------------------------------------

  function Insert<T>(cfg: Config, c: Cache<T>, key: string, entry: Entry<T>, epoch: nat): Cache<T> {
    if c.stopped || c.epoch != epoch || entry.size > cfg.budgetBytes then c
    else c.(slots := Shrink(cfg, Drop(c.slots, {key}), entry.size) + [Slot(key, entry)])
  }

  /** The servable entry for `key` at time `now`, if any. */
  function Servable<T>(cfg: Config, c: Cache<T>, key: string, now: int): (r: Option<Entry<T>>)
    ensures r.Some? ==> Slot(key, r.value) in c.slots && now - r.value.generated < cfg.staleTtl
  {
    match Find(c.slots, key)
    case Some(e) => if now - e.generated < cfg.staleTtl then Some(e) else None
    case None => None
  }

  /** Serving a stale entry starts a background refresh unless one is running for the key. */
  predicate StartsRefresh<T>(cfg: Config, c: Cache<T>, key: string, now: int) {
    var e := Servable(cfg, c, key, now);
    e.Some? && now - e.value.generated >= cfg.ttl && key !in c.refreshing
  }

  function Lookup<T>(cfg: Config, c: Cache<T>, key: string, now: int): Cache<T> {
    match Servable(cfg, c, key, now)
    case None => c
    case Some(e) =>
      var moved := c.(slots := Drop(c.slots, {key}) + [Slot(key, e)]);
      if StartsRefresh(cfg, c, key, now) then moved.(refreshing := c.refreshing + {key}) else moved
  }

  predicate Touched(key: string, paths: seq<string>) {
    exists i :: 0 <= i < |paths| && Paths.Related(key, paths[i])
  }

  function TouchedKeys(keys: set<string>, paths: seq<string>): set<string> {
    set k | k in keys && Touched(k, paths)
  }

  function Doomed<T>(slots: seq<Slot<T>>, paths: seq<string>): set<string> {
    TouchedKeys(Keys(slots), paths)
  }

  function InvalidatePaths<T>(c: Cache<T>, paths: seq<string>): Cache<T> {
    c.(slots := Drop(c.slots, Doomed(c.slots, paths)), epoch := c.epoch + 1)
  }

  function InvalidateAll<T>(c: Cache<T>): Cache<T> {
    c.(slots := [], epoch := c.epoch + 1)
  }

  /** The keys `refresh_all` starts a refresh for. */
  function ToRefresh<T>(c: Cache<T>): set<string> {
    Keys(c.slots) - c.refreshing
  }

  function RefreshAll<T>(c: Cache<T>): Cache<T> {
    c.(refreshing := c.refreshing + ToRefresh(c))
  }

  function RefreshDone<T>(c: Cache<T>, key: string): Cache<T> {
    c.(refreshing := c.refreshing - {key})
  }

  function Stop<T>(c: Cache<T>): Cache<T> {
    c.(stopped := true)
  }

  // --- laws of the list -----------------------------------------------------------------

  lemma {:induction false} DropMember<T>(slots: seq<Slot<T>>, keys: set<string>, s: Slot<T>)
    ensures s in Drop(slots, keys) <==> s in slots && s.key !in keys
  {
    if slots != [] {
      DropMember(slots[1..], keys, s);
      assert slots == [slots[0]] + slots[1..];
    }
  }

  lemma DropKeys<T>(slots: seq<Slot<T>>, keys: set<string>)
    ensures Keys(Drop(slots, keys)) == Keys(slots) - keys
  {
    var r := Drop(slots, keys);
    forall k ensures k in Keys(r) <==> k in Keys(slots) && k !in keys {
      if k in Keys(r) {
        var i :| 0 <= i < |r| && r[i].key == k;
        DropMember(slots, keys, r[i]);
      }
      if k in Keys(slots) && k !in keys {
        var i :| 0 <= i < |slots| && slots[i].key == k;
        DropMember(slots, keys, slots[i]);
      }
    }
  }

  lemma {:induction false} DropTwice<T>(slots: seq<Slot<T>>, a: set<string>, b: set<string>)
    ensures Drop(Drop(slots, a), b) == Drop(slots, a + b)
  {
    if slots != [] {
      DropTwice(slots[1..], a, b);
      var rest := Drop(slots[1..], a);
      if slots[0].key !in a {
        assert ([slots[0]] + rest)[1..] == rest;
      } else {
        assert [] + rest == rest;
      }
    }
  }

  lemma {:induction false} DropNothing<T>(slots: seq<Slot<T>>, keys: set<string>)
    requires Keys(slots) !! keys
    ensures Drop(slots, keys) == slots
  {
    if slots != [] {
      assert Keys(slots[1..]) <= Keys(slots) by {
        assert forall i :: 0 <= i < |slots[1..]| ==> slots[1..][i] == slots[i + 1];
      }
      DropNothing(slots[1..], keys);
    }
  }

  lemma {:induction false} DropShrinks<T>(slots: seq<Slot<T>>, keys: set<string>)
    ensures |Drop(slots, keys)| <= |slots| && Bytes(Drop(slots, keys)) <= Bytes(slots)
  {
    if slots != [] {
      DropShrinks(slots[1..], keys);
      if slots[0].key !in keys {
        assert Drop(slots, keys)[1..] == Drop(slots[1..], keys);
      } else {
        assert Drop(slots, keys) == Drop(slots[1..], keys);
      }
    }
  }

  lemma {:induction false} BytesAppend<T>(slots: seq<Slot<T>>, s: Slot<T>)
    ensures Bytes(slots + [s]) == Bytes(slots) + s.entry.size
  {
    if slots == [] {
      assert slots + [s] == [s];
    } else {
      assert (slots + [s])[1..] == slots[1..] + [s];
      BytesAppend(slots[1..], s);
    }
  }

  predicate DistinctKeys<T>(slots: seq<Slot<T>>) {
    forall i, j :: 0 <= i < j < |slots| ==> slots[i].key != slots[j].key
  }

  lemma {:induction false} DropDistinct<T>(slots: seq<Slot<T>>, keys: set<string>)
    requires DistinctKeys(slots)
    ensures DistinctKeys(Drop(slots, keys))
  {
    if slots != [] {
      var rest := Drop(slots[1..], keys);
      DropDistinct(slots[1..], keys);
      forall i | 0 <= i < |rest| ensures rest[i].key != slots[0].key {
        DropMember(slots[1..], keys, rest[i]);
        var j :| 0 <= j < |slots[1..]| && slots[1..][j] == rest[i];
        assert slots[j + 1] == rest[i];
      }
    }
  }

  lemma {:induction false} DropOneBytes<T>(slots: seq<Slot<T>>, s: Slot<T>)
    requires DistinctKeys(slots) && s in slots
    ensures Bytes(Drop(slots, {s.key})) == Bytes(slots) - s.entry.size
    ensures |Drop(slots, {s.key})| == |slots| - 1
  {
    var rest := slots[1..];
    if slots[0].key == s.key {
      assert slots[0] == s;
      assert s.key !in Keys(rest) by {
        assert forall i :: 0 <= i < |rest| ==> rest[i] == slots[i + 1];
      }
      DropNothing(rest, {s.key});
      assert Drop(slots, {s.key}) == rest;
    } else {
      assert s in rest;
      DropOneBytes(rest, s);
      assert Drop(slots, {s.key})[1..] == Drop(rest, {s.key});
    }
  }

  lemma DropFirst<T>(slots: seq<Slot<T>>)
    requires slots != [] && DistinctKeys(slots)
    ensures Drop(slots, {slots[0].key}) == slots[1..]
  {
    var rest := slots[1..];
    assert forall i :: 0 <= i < |rest| ==> rest[i] == slots[i + 1];
    DropNothing(rest, {slots[0].key});
  }

  lemma {:induction false} KeysCount<T>(slots: seq<Slot<T>>)
    requires DistinctKeys(slots)
    ensures |Keys(slots)| == |slots|
  {
    if slots == [] {
      assert Keys(slots) == {};
    } else {
      var rest := slots[1..];
      KeysCount(rest);
      assert forall i :: 0 <= i < |rest| ==> rest[i] == slots[i + 1];
      assert slots[0].key !in Keys(rest);
      assert Keys(slots) == Keys(rest) + {slots[0].key} by {
        forall k | k in Keys(slots) ensures k in Keys(rest) + {slots[0].key} {
          var i :| 0 <= i < |slots| && slots[i].key == k;
          assert i > 0 ==> rest[i - 1].key == k;
        }
      }
    }
  }

  lemma KeysAppend<T>(slots: seq<Slot<T>>, s: Slot<T>)
    ensures Keys(slots + [s]) == Keys(slots) + {s.key}
  {
    var all := slots + [s];
    assert all[|slots|] == s;
    assert forall i :: 0 <= i < |slots| ==> all[i] == slots[i];
    forall k | k in Keys(slots) ensures k in Keys(all) {
      var i :| 0 <= i < |slots| && slots[i].key == k;
      assert all[i].key == k;
    }
  }

  lemma DistinctAppend<T>(slots: seq<Slot<T>>, s: Slot<T>)
    requires DistinctKeys(slots) && s.key !in Keys(slots)
    ensures DistinctKeys(slots + [s])
  {
    assert forall i :: 0 <= i < |slots| ==> slots[i].key in Keys(slots);
  }

  lemma {:induction false} DropAppend<T>(slots: seq<Slot<T>>, s: Slot<T>, keys: set<string>)
    ensures Drop(slots + [s], keys) == Drop(slots, keys) + if s.key in keys then [] else [s]
  {
    if slots == [] {
      assert slots + [s] == [s];
    } else {
      TailOfPush(slots, s);
      DropAppend(slots[1..], s, keys);
      Regroup(if slots[0].key in keys then [] else [slots[0]], Drop(slots[1..], keys),
              if s.key in keys then [] else [s]);
    }
  }

  lemma {:induction false} FindMember<T>(slots: seq<Slot<T>>, s: Slot<T>)
    requires DistinctKeys(slots) && s in slots
    ensures Find(slots, s.key) == Some(s.entry)
  {
    if slots[0].key != s.key {
      assert s in slots[1..];
      FindMember(slots[1..], s);
    } else {
      var i :| 0 <= i < |slots| && slots[i] == s;
    }
  }

  /** Eviction drops a prefix of the recency list, the shortest one that makes room. */
  lemma {:induction false} ShrinkDropsShortestPrefix<T>(cfg: Config, slots: seq<Slot<T>>, size: nat) returns (n: nat)
    ensures n <= |slots| && Shrink(cfg, slots, size) == slots[n..]
    ensures n == |slots| || Fits(cfg, slots[n..], size)
    ensures forall d :: 0 <= d < n ==> !Fits(cfg, slots[d..], size)
  {
    if slots == [] || Fits(cfg, slots, size) {
      n := 0;
      WholeTail(slots);
    } else {
      var rest := slots[1..];
      var m := ShrinkDropsShortestPrefix(cfg, rest, size);
      n := m + 1;
      assert rest[m..] == slots[n..];
      forall d | 0 <= d < n ensures !Fits(cfg, slots[d..], size) {
        if d == 0 {
          WholeTail(slots);
        } else {
          assert slots[d..] == rest[d - 1..];
        }
      }
    }
  }

  // --- what holds in every reachable cache ----------------------------------------------

  function EntryLimit(cfg: Config): nat {
    if cfg.maxEntries == 0 then 1 else cfg.maxEntries
  }

  /** One entry per key, and within the byte budget and the entry limit. */
  predicate Bounded<T>(cfg: Config, c: Cache<T>) {
    DistinctKeys(c.slots) && Bytes(c.slots) <= cfg.budgetBytes && |c.slots| <= EntryLimit(cfg)
  }

  /** What eviction leaves keeps the keys distinct and makes room. */
  lemma ShrinkFits<T>(cfg: Config, others: seq<Slot<T>>, size: nat)
    requires DistinctKeys(others) && size <= cfg.budgetBytes
    ensures var kept := Shrink(cfg, others, size);
      && DistinctKeys(kept) && Bytes(kept) + size <= cfg.budgetBytes && |kept| < EntryLimit(cfg)
      && forall i :: 0 <= i < |kept| ==> kept[i] in others
  {
    var n := ShrinkDropsShortestPrefix(cfg, others, size);
    assert forall i :: 0 <= i < |others| - n ==> others[n..][i] == others[n + i];
  }

  lemma InsertBounded<T>(cfg: Config, c: Cache<T>, key: string, entry: Entry<T>, epoch: nat)
    requires Bounded(cfg, c)
    ensures Bounded(cfg, Insert(cfg, c, key, entry, epoch))
  {
    if entry.size <= cfg.budgetBytes {
      var others := Drop(c.slots, {key});
      DropDistinct(c.slots, {key});
      ShrinkFits(cfg, others, entry.size);
      StoreBounded(others, Shrink(cfg, others, entry.size), Slot(key, entry), c.slots);
    }
  }

  lemma StoreBounded<T>(others: seq<Slot<T>>, kept: seq<Slot<T>>, s: Slot<T>, slots: seq<Slot<T>>)
    requires others == Drop(slots, {s.key}) && DistinctKeys(kept)
    requires forall i :: 0 <= i < |kept| ==> kept[i] in others
    ensures DistinctKeys(kept + [s]) && Bytes(kept + [s]) == Bytes(kept) + s.entry.size
  {
    DropKeys(slots, {s.key});
    forall i | 0 <= i < |kept| ensures kept[i].key != s.key {
      assert kept[i].key in Keys(others);
    }
    BytesAppend(kept, s);
  }

  lemma LookupBounded<T>(cfg: Config, c: Cache<T>, key: string, now: int)
    requires Bounded(cfg, c)
    ensures Bounded(cfg, Lookup(cfg, c, key, now))
  {
    var e := Servable(cfg, c, key, now);
    if e.Some? {
      MoveUp(c.slots, Slot(key, e.value));
    }
  }

  /** Moving a slot to the recent end. */
  lemma MoveUp<T>(slots: seq<Slot<T>>, s: Slot<T>)
    requires DistinctKeys(slots) && s in slots
    ensures var r := Drop(slots, {s.key}) + [s]; DistinctKeys(r) && Bytes(r) == Bytes(slots) && |r| == |slots|
  {
    var others := Drop(slots, {s.key});
    DropDistinct(slots, {s.key});
    DropKeys(slots, {s.key});
    assert forall i :: 0 <= i < |others| ==> others[i].key in Keys(others);
    DropOneBytes(slots, s);
    BytesAppend(others, s);
  }

  lemma InvalidateBounded<T>(cfg: Config, c: Cache<T>, paths: seq<string>)
    requires Bounded(cfg, c)
    ensures Bounded(cfg, InvalidatePaths(c, paths)) && Bounded(cfg, InvalidateAll(c))
  {
    DropDistinct(c.slots, Doomed(c.slots, paths));
    DropShrinks(c.slots, Doomed(c.slots, paths));
  }
}
