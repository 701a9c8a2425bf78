/**
 The queue page's keyed lists: a container's children are brought in line with a list of items by
 key, in place, so that a node that stays is the same node.

 The DOM is a sequence of node identities and the `data-key` each node carries. Two items can end up
 under one key; `DistinctIffSeparate` says when, and `Container.Reconcile` what is shown either way.
 */
module Reconcile {
  import opened Sequences
  import opened Text

  type Node = nat

  const MARKER: string := "\U{0003}"

  /** The property names a plain object has before anything is stored in it: looked up there, they
      count as keys already kept. */
  const BUILT_IN: set<string> := {
    "constructor", "hasOwnProperty", "isPrototypeOf", "propertyIsEnumerable", "toLocaleString",
    "toString", "valueOf", "__proto__", "__defineGetter__", "__defineSetter__",
    "__lookupGetter__", "__lookupSetter__" }

  function Marked(raw: string, index: nat): string {
    raw + (MARKER + Decimal(index))
  }

  /** The key the item at `index` is reconciled under, given the keys kept so far. */
  function FinalKey(raw: string, index: nat, kept: set<string>): string {
    if raw in kept || raw in BUILT_IN then Marked(raw, index) else raw
  }

  /** The keys of a list of items, in order. */
  function FinalKeys(raws: seq<string>): (r: seq<string>)
    ensures |r| == |raws|
  {
    if raws == [] then []
    else
      var n := |raws| - 1;
      var before := FinalKeys(raws[..n]);
      before + [FinalKey(raws[n], n, Elements(before))]
  }

  // --- keys stay apart ------------------------------------------------------------------

  /** The raw key of the item at `j` counts as kept already: another item has it, or every object does. */
  predicate Repeats(raws: seq<string>, j: nat)
    requires j < |raws|
  {
    raws[j] in Elements(FinalKeys(raws[..j])) || raws[j] in BUILT_IN
  }

  /** No repeated key gets, by its mark, a raw key from before. */
  predicate Separate(raws: seq<string>) {
    forall j :: 0 <= j < |raws| ==> !(Repeats(raws, j) && Marked(raws[j], j) in raws[..j])
  }

  lemma {:induction false} FinalKeysPrefix(raws: seq<string>, n: nat)
    requires n <= |raws|
    ensures FinalKeys(raws)[..n] == FinalKeys(raws[..n])
    decreases |raws|
  {
    if n < |raws| {
      var m := |raws| - 1;
      PrefixOfPrefix(raws, n, m);
      FinalKeysPrefix(raws[..m], n);
      assert FinalKeys(raws)[..n] == FinalKeys(raws[..m])[..n];
    } else {
      assert raws[..n] == raws;
    }
  }

  lemma LastFinalKey(raws: seq<string>)
    requires raws != []
    ensures var n := |raws| - 1; FinalKeys(raws)[n] == FinalKey(raws[n], n, Elements(FinalKeys(raws[..n])))
  {
  }

  lemma {:induction false} FinalKeyOf(raws: seq<string>, n: nat)
    requires n < |raws|
    ensures FinalKeys(raws)[n] == FinalKey(raws[n], n, Elements(FinalKeys(raws[..n])))
    decreases |raws|
  {
    var m := |raws| - 1;
    if n < m {
      FinalKeyOf(raws[..m], n);
      PrefixOfPrefix(raws, n, m);
    } else {
      LastFinalKey(raws);
    }
  }

  lemma PrefixOfPrefix<T>(s: seq<T>, n: nat, m: nat)
    requires n <= m <= |s|
    ensures s[..m][..n] == s[..n]
  {
  }

  lemma FinalKeyAt(raws: seq<string>, n: nat)
    requires n < |raws|
    ensures FinalKeys(raws)[n] == if Repeats(raws, n) then Marked(raws[n], n) else raws[n]
    ensures FinalKeys(raws)[n] == FinalKey(raws[n], n, Elements(FinalKeys(raws)[..n]))
  {
    FinalKeyOf(raws, n);
    FinalKeysPrefix(raws, n);
  }

  lemma MarkHasMarker(raw: string, i: nat)
    ensures MARKER[0] in Marked(raw, i) && Marked(raw, i) !in BUILT_IN
  {
    assert Marked(raw, i)[|raw|] == MARKER[0];
    BuiltInUnmarked();
  }

  lemma BuiltInUnmarked()
    ensures forall k :: k in BUILT_IN ==> MARKER[0] !in k
  {
    assert MARKER[0] as int == 3;
  }

  /** A marked key is among the keys so far exactly when it is among the raw keys so far. */
  lemma MarkTakenIff(raws: seq<string>, j: nat)
    requires j < |raws|
    ensures Marked(raws[j], j) in FinalKeys(raws[..j]) <==> Marked(raws[j], j) in raws[..j]
  {
    var marked, before, keys := Marked(raws[j], j), raws[..j], FinalKeys(raws[..j]);
    if i :| 0 <= i < j && keys[i] == marked {
      FinalKeyAt(before, i);
      if Repeats(before, i) {
        NumeralReadsBack(before[i], i, raws[j], j, MARKER[0]);
      } else {
        assert before[i] == marked;
      }
    }
    if i :| 0 <= i < j && before[i] == marked {
      FinalKeyAt(before, i);
      MarkHasMarker(raws[j], j);
      if Repeats(before, i) {
        FinalKeysPrefix(before, i);
        assert marked in keys[..i];
      } else {
        assert keys[i] == marked;
      }
    }
  }

  /** The key of an item repeats an earlier one exactly in the failing branch. */
  lemma CollidesIff(raws: seq<string>, j: nat)
    requires j < |raws|
    ensures FinalKeys(raws)[j] in FinalKeys(raws[..j]) <==> Repeats(raws, j) && Marked(raws[j], j) in raws[..j]
  {
    FinalKeyAt(raws, j);
    MarkTakenIff(raws, j);
  }

  /** The exact condition: the items' keys are pairwise distinct if and only if no repeated key gets, by
      its mark, a raw key from before. */
  lemma DistinctIffSeparate(raws: seq<string>)
    ensures Distinct(FinalKeys(raws)) <==> Separate(raws)
  {
    var keys := FinalKeys(raws);
    forall j | 0 <= j < |raws|
      ensures keys[j] in keys[..j] <==> Repeats(raws, j) && Marked(raws[j], j) in raws[..j]
    {
      CollidesIff(raws, j);
      FinalKeysPrefix(raws, j);
    }
    DistinctByPrefix(keys);
  }

  lemma DistinctByPrefix(keys: seq<string>)
    ensures Distinct(keys) <==> forall j :: 0 <= j < |keys| ==> keys[j] !in keys[..j]
  {
    if Distinct(keys) {
      forall j | 0 <= j < |keys| ensures keys[j] !in keys[..j] {
        assert forall i :: 0 <= i < j ==> keys[..j][i] == keys[i];
      }
    }
    if forall j :: 0 <= j < |keys| ==> keys[j] !in keys[..j] {
      forall i, j | 0 <= i < j < |keys| ensures keys[i] != keys[j] {
        assert keys[..j][i] == keys[i];
      }
    }
  }

  predicate Unmarked(raws: seq<string>) {
    forall i :: 0 <= i < |raws| ==> MARKER[0] !in raws[i]
  }

  /** Raw keys without the duplicate marker meet the condition, duplicates and built-in names included. */
  lemma UnmarkedKeysDistinct(raws: seq<string>)
    requires Unmarked(raws)
    ensures Separate(raws) && Distinct(FinalKeys(raws))
  {
    forall j | 0 <= j < |raws| ensures Marked(raws[j], j) !in raws[..j] {
      MarkHasMarker(raws[j], j);
      assert forall i :: 0 <= i < j ==> raws[..j][i] == raws[i];
    }
    DistinctIffSeparate(raws);
  }

  /** With the marker in a raw key the condition can fail. */
  lemma MarkedKeysMayCollide()
    ensures var raws := ["a", Marked("a", 2), "a"]; !Separate(raws) && !Distinct(FinalKeys(raws))
  {
    var raws := ["a", Marked("a", 2), "a"];
    FinalKeyAt(raws[..2], 0);
    FinalKeysPrefix(raws, 2);
    assert raws[..2][..0] == [] && Elements(FinalKeys([])) == {};
    assert raws[..2][0] == "a";
    BuiltInIsLong();
    assert FinalKeys(raws[..2])[0] == "a";
    assert raws[..2][1] == Marked(raws[2], 2);
    assert Repeats(raws, 2);
    DistinctIffSeparate(raws);
  }

  lemma BuiltInIsLong()
    ensures "a" !in BUILT_IN
  {
  }

  // --- the container --------------------------------------------------------------------

  function Without(children: seq<Node>, node: Node): seq<Node> {
    if children == [] then []
    else if children[0] == node then Without(children[1..], node)
    else [children[0]] + Without(children[1..], node)
  }

  function IndexOfNode(children: seq<Node>, node: Node): (i: nat)
    ensures i <= |children|
    ensures i < |children| <==> node in children
    ensures i < |children| ==> children[i] == node
  {
    if children == [] || children[0] == node then 0 else 1 + IndexOfNode(children[1..], node)
  }

  lemma {:induction false} WithoutMember(children: seq<Node>, node: Node, n: Node)
    ensures n in Without(children, node) <==> n in children && n != node
  {
    if children != [] {
      WithoutMember(children[1..], node, n);
      assert children == [children[0]] + children[1..];
    }
  }

  lemma {:induction false} WithoutAbsent(children: seq<Node>, node: Node)
    requires node !in children
    ensures Without(children, node) == children
  {
    if children != [] {
      assert children[0] != node && node !in children[1..];
      WithoutAbsent(children[1..], node);
    }
  }

  lemma {:induction false} WithoutConcat(a: seq<Node>, b: seq<Node>, node: Node)
    ensures Without(a + b, node) == Without(a, node) + Without(b, node)
  {
    if a == [] {
      assert a + b == b;
    } else {
      assert (a + b)[1..] == a[1..] + b;
      WithoutConcat(a[1..], b, node);
    }
  }

  lemma {:induction false} WithoutDistinct(children: seq<Node>, node: Node)
    requires Distinct(children)
    ensures Distinct(Without(children, node))
  {
    if children != [] {
      var rest := children[1..];
      assert forall i :: 0 <= i < |rest| ==> rest[i] == children[i + 1];
      WithoutDistinct(rest, node);
      WithoutMember(rest, node, children[0]);
      assert children[0] !in rest;
    }
  }

  function Head(s: seq<Node>): Option<Node> {
    if s == [] then None else Some(s[0])
  }

  /** `existing` finds each child by the key it carries. */
  ghost predicate Indexes(existing: map<string, Node>, start: seq<Node>, key: map<Node, string>) {
    && (forall n :: n in start ==> n in key && key[n] in existing && existing[key[n]] == n)
    && (forall k :: k in existing ==> existing[k] in start && existing[k] in key && key[existing[k]] == k)
  }

  /** A placed node carries a kept key: the child that carried it before, or a node not used before. */
  ghost predicate RightNode(key0: map<Node, string>, existing: map<string, Node>, key: map<Node, string>,
                            keys: seq<string>, node: Node) {
    && node in key && key[node] in keys
    && (if key[node] in existing then node == existing[key[node]] else node !in key0)
  }

  ghost predicate Shown(placed: seq<Node>, key: map<Node, string>, k: string) {
    exists n :: n in placed && n in key && key[n] == k
  }

  /** Node by node, the keys in order. */
  ghost predicate InOrder(key: map<Node, string>, keys: seq<string>, placed: seq<Node>) {
    && |placed| == |keys|
    && forall i :: 0 <= i < |keys| ==> placed[i] in key && key[placed[i]] == keys[i]
  }

  /** Half-way through: the nodes placed so far, then the old children not placed yet. */
  ghost predicate InLine(start: seq<Node>, key0: map<Node, string>, existing: map<string, Node>, key: map<Node, string>,
                         keys: seq<string>, placed: seq<Node>, rest: seq<Node>)
  {
    && Distinct(placed + rest) && Indexes(existing, start, key0)
    && (forall n :: n in key0 ==> n in key && key[n] == key0[n])
    && (forall n :: n in rest ==> n in start)
    && (forall n :: n in start ==> n in placed || n in rest)
    && (forall n :: n in placed ==> RightNode(key0, existing, key, keys, n))
    && (forall k :: k in keys ==> Shown(placed, key, k))
    && (Distinct(keys) ==> InOrder(key, keys, placed))
  }

  /** What `NodeFor` gives. */
  ghost predicate NodeGiven(existing: map<string, Node>, before: map<Node, string>, key: map<Node, string>, k: string,
                            node: Node)
  {
    if k in existing then node == existing[k] && node in before && before[node] == k && key == before
    else node !in before && key == before[node := k]
  }

  lemma InLineStep(start: seq<Node>, key0: map<Node, string>, existing: map<string, Node>,
                   before: map<Node, string>, key: map<Node, string>,
                   keys: seq<string>, placed: seq<Node>, rest: seq<Node>, k: string, node: Node)
    requires InLine(start, key0, existing, before, keys, placed, rest)
    requires NodeGiven(existing, before, key, k, node)
    ensures InLine(start, key0, existing, key, keys + [k], Without(placed, node) + [node], Without(rest, node))
  {
    var p, r, all := Without(placed, node) + [node], Without(rest, node), keys + [k];
    PlacedAgain(placed, rest, node);
    forall n ensures n in p <==> n in placed || n == node {
      WithoutMember(placed, node, n);
    }
    forall n ensures n in r <==> n in rest && n != node {
      WithoutMember(rest, node, n);
    }
    NodeStays(key0, existing, before, key, keys, placed, k, node);
    StillShown(before, key, keys, placed, p, k, node);
    if Distinct(all) {
      StaysInOrder(key0, existing, before, key, keys, placed, k, node);
    }
  }

  lemma PlacedAgain(placed: seq<Node>, rest: seq<Node>, node: Node)
    requires Distinct(placed + rest)
    ensures Distinct(Without(placed, node) + [node] + Without(rest, node))
  {
    DistinctSplit(placed, rest);
    WithoutDistinct(placed, node);
    WithoutDistinct(rest, node);
    forall n ensures n in Without(placed, node) <==> n in placed && n != node {
      WithoutMember(placed, node, n);
    }
    forall n ensures n in Without(rest, node) <==> n in rest && n != node {
      WithoutMember(rest, node, n);
    }
    DistinctJoin(Without(placed, node), [node]);
    DistinctJoin(Without(placed, node) + [node], Without(rest, node));
  }

  lemma NodeStays(key0: map<Node, string>, existing: map<string, Node>, before: map<Node, string>,
                  key: map<Node, string>, keys: seq<string>, placed: seq<Node>, k: string, node: Node)
    requires forall n :: n in placed ==> RightNode(key0, existing, before, keys, n)
    requires forall n :: n in key0 ==> n in before && before[n] == key0[n]
    requires NodeGiven(existing, before, key, k, node)
    ensures forall n :: n in placed || n == node ==> RightNode(key0, existing, key, keys + [k], n)
  {
    forall n | n in placed || n == node ensures RightNode(key0, existing, key, keys + [k], n) {
      if n in placed {
        assert RightNode(key0, existing, before, keys, n);
        assert key[n] == before[n] && before[n] in keys + [k];
      } else {
        assert key[n] == k && k in keys + [k];
      }
    }
  }

  lemma StillShown(before: map<Node, string>, key: map<Node, string>, keys: seq<string>, placed: seq<Node>,
                   after: seq<Node>, k: string, node: Node)
    requires forall j :: j in keys ==> Shown(placed, before, j)
    requires forall n :: n in after <==> n in placed || n == node
    requires node in key && key[node] == k && forall n :: n in before ==> n in key && key[n] == before[n]
    ensures forall j :: j in keys + [k] ==> Shown(after, key, j)
  {
    forall j | j in keys + [k] ensures Shown(after, key, j) {
      if j in keys {
        var n :| n in placed && n in before && before[n] == j;
        assert n in after && key[n] == j;
      } else {
        assert j == k && node in after;
      }
    }
  }

  lemma StaysInOrder(key0: map<Node, string>, existing: map<string, Node>, before: map<Node, string>,
                     key: map<Node, string>, keys: seq<string>, placed: seq<Node>, k: string, node: Node)
    requires forall n :: n in placed ==> RightNode(key0, existing, before, keys, n)
    requires NodeGiven(existing, before, key, k, node)
    requires Distinct(keys) ==> InOrder(before, keys, placed)
    requires Distinct(keys + [k])
    ensures InOrder(key, keys + [k], Without(placed, node) + [node])
  {
    var all := keys + [k];
    assert forall i :: 0 <= i < |keys| ==> all[i] == keys[i] && all[|keys|] == k;
    assert Distinct(keys) && k !in keys;
    assert node !in placed;
    WithoutAbsent(placed, node);
  }

  lemma DistinctSplit(a: seq<Node>, b: seq<Node>)
    requires Distinct(a + b)
    ensures Distinct(a) && Distinct(b) && forall n :: n in a ==> n !in b
  {
    var all := a + b;
    assert forall i :: 0 <= i < |a| ==> all[i] == a[i];
    assert forall i :: 0 <= i < |b| ==> all[|a| + i] == b[i];
  }

  lemma DistinctJoin(a: seq<Node>, b: seq<Node>)
    requires Distinct(a) && Distinct(b) && forall n :: n in a ==> n !in b
    ensures Distinct(a + b)
  {
    assert forall i :: 0 <= i < |a| ==> a[i] in a;
    assert forall i :: 0 <= i < |b| ==> b[i] in b;
  }

  /** A child whose key was kept has been placed. */
  lemma KeptIsPlaced(start: seq<Node>, key0: map<Node, string>, existing: map<string, Node>, key: map<Node, string>,
                     keys: seq<string>, placed: seq<Node>, n: Node)
    requires Indexes(existing, start, key0)
    requires forall m :: m in placed ==> RightNode(key0, existing, key, keys, m)
    requires n in start && Shown(placed, key, key0[n])
    ensures n in placed
  {
    var m :| m in placed && m in key && key[m] == key0[n];
    assert RightNode(key0, existing, key, keys, m);
  }

  /** At the end: what was not placed carries a key that was not kept. */
  lemma InLineStale(start: seq<Node>, key0: map<Node, string>, existing: map<string, Node>, key: map<Node, string>,
                    keys: seq<string>, placed: seq<Node>, rest: seq<Node>)
    requires InLine(start, key0, existing, key, keys, placed, rest)
    ensures forall n :: n in rest ==> n in key && key[n] in existing && existing[key[n]] == n && key[n] !in keys
    ensures forall k :: k in existing && k !in keys ==> existing[k] !in placed
  {
    forall n | n in start && key0[n] in keys ensures n in placed {
      assert Shown(placed, key, key0[n]);
      KeptIsPlaced(start, key0, existing, key, keys, placed, n);
    }
    forall n | n in placed ensures n in key && key[n] in keys {
      assert RightNode(key0, existing, key, keys, n);
    }
    DistinctSplit(placed, rest);
  }

  /** What the items' keys come to in a container that had children `start`. */
  ghost predicate Shows(start: seq<Node>, key0: map<Node, string>, key: map<Node, string>, keys: seq<string>,
                        children: seq<Node>) {
    && (forall k :: k in keys ==> Shown(children, key, k))
    && (forall n :: n in children ==> n in key && key[n] in keys && (n in start || n !in key0))
    && (forall m, n :: m in start && n in children && m in key0 && n in key && key0[m] == key[n] ==> m == n)
    && (forall n :: n in key0 ==> n in key && key[n] == key0[n])
  }

  lemma InLineDone(start: seq<Node>, key0: map<Node, string>, existing: map<string, Node>, key: map<Node, string>,
                   keys: seq<string>, placed: seq<Node>, rest: seq<Node>)
    requires InLine(start, key0, existing, key, keys, placed, rest)
    ensures Distinct(placed) && Shows(start, key0, key, keys, placed)
    ensures Distinct(keys) ==> InOrder(key, keys, placed)
  {
    DistinctSplit(placed, rest);
    forall n | n in placed
      ensures n in key && key[n] in keys && (n in start || n !in key0)
      ensures forall m :: m in start && m in key0 && key0[m] == key[n] ==> m == n
    {
      assert RightNode(key0, existing, key, keys, n);
    }
  }

  /** Children distinct, each under a key, no two under one. */
  ghost predicate Keyed(children: seq<Node>, key: map<Node, string>) {
    && Distinct(children)
    && (forall n :: n in children ==> n in key && key[n] !in BUILT_IN)
    && (forall m, n :: m in children && n in children && m != n ==> key[m] != key[n])
  }

  function KeysOf(children: seq<Node>, key: map<Node, string>): (r: seq<string>)
    requires forall n :: n in children ==> n in key
    ensures |r| == |children| && forall i :: 0 <= i < |r| ==> r[i] == key[children[i]]
  {
    seq(|children|, i requires 0 <= i < |children| => key[children[i]])
  }

  /** A keyed container that shows as many children as there are items cannot come of repeated keys. */
  lemma KeyedCountsItems(start: seq<Node>, key0: map<Node, string>, key: map<Node, string>, keys: seq<string>,
                         children: seq<Node>)
    requires Shows(start, key0, key, keys, children) && Keyed(children, key) && |children| == |keys|
    ensures Distinct(keys)
  {
    var own := KeysOf(children, key);
    assert Distinct(own);
    DistinctBySize(own);
    DistinctBySize(keys);
    forall k ensures k in Elements(own) <==> k in Elements(keys) {
      if k in keys {
        assert Shown(children, key, k);
        var n :| n in children && n in key && key[n] == k;
        var i :| 0 <= i < |children| && children[i] == n;
        assert own[i] == k;
      }
    }
    assert Elements(own) == Elements(keys);
  }

  lemma InOrderIsKeyed(key: map<Node, string>, keys: seq<string>, children: seq<Node>)
    requires InOrder(key, keys, children) && Distinct(keys) && Distinct(children)
    requires forall k :: k in keys ==> k !in BUILT_IN
    ensures Keyed(children, key)
  {
    forall n | n in children ensures n in key && key[n] in keys {
      var i :| 0 <= i < |children| && children[i] == n;
      assert keys[i] == key[n];
    }
  }

  lemma {:induction false} FinalKeysNotBuiltIn(raws: seq<string>)
    ensures forall k :: k in FinalKeys(raws) ==> k !in BUILT_IN
  {
    forall j | 0 <= j < |raws| ensures FinalKeys(raws)[j] !in BUILT_IN {
      FinalKeyAt(raws, j);
      MarkHasMarker(raws[j], j);
    }
  }

  /** The outcome, and when it is the one wanted. */
  lemma OutcomeIff(start: seq<Node>, key0: map<Node, string>, existing: map<string, Node>, key: map<Node, string>,
                   keys: seq<string>, placed: seq<Node>, rest: seq<Node>)
    requires InLine(start, key0, existing, key, keys, placed, rest) && forall k :: k in keys ==> k !in BUILT_IN
    ensures Shows(start, key0, key, keys, placed)
    ensures Keyed(placed, key) && |placed| == |keys| <==> Distinct(keys)
    ensures Distinct(keys) ==> InOrder(key, keys, placed)
  {
    InLineDone(start, key0, existing, key, keys, placed, rest);
    KeyedIff(start, key0, key, keys, placed);
  }

  lemma KeyedIff(start: seq<Node>, key0: map<Node, string>, key: map<Node, string>, keys: seq<string>,
                 placed: seq<Node>)
    requires Shows(start, key0, key, keys, placed) && Distinct(placed) && forall k :: k in keys ==> k !in BUILT_IN
    requires Distinct(keys) ==> InOrder(key, keys, placed)
    ensures Keyed(placed, key) && |placed| == |keys| <==> Distinct(keys)
  {
    if Distinct(keys) {
      InOrderIsKeyed(key, keys, placed);
    }
    if Keyed(placed, key) && |placed| == |keys| {
      KeyedCountsItems(start, key0, key, keys, placed);
    }
  }

  class Container {
    var children: seq<Node>
    /** The key written on each node ever made. */
    var key: map<Node, string>

    constructor ()
      ensures children == [] && key == map[]
    {
      children, key := [], map[];
    }

    /** What a reconciliation of separate items leaves. */
    ghost predicate Valid()
      reads this
    {
      Keyed(children, key)
    }

    /** `insertBefore`: take the node from wherever it is and put it before `cursor` (null: at the end). */
    method InsertBefore(node: Node, cursor: Option<Node>)
      requires cursor != Some(node)
      modifies this`children
      ensures cursor == None ==> children == Without(old(children), node) + [node]
      ensures cursor.Some? ==>
        var rest := Without(old(children), node);
        var i := IndexOfNode(rest, cursor.value);
        children == rest[..i] + [node] + rest[i..]
    {
      var rest := Without(children, node);
      var i := if cursor.Some? then IndexOfNode(rest, cursor.value) else |rest|;
      children := rest[..i] + [node] + rest[i..];
    }

    /** `nextElementSibling`. */
    function Next(node: Node): Option<Node>
      reads this
    {
      var i := IndexOfNode(children, node);
      if i + 1 < |children| then Some(children[i + 1]) else None
    }

    /** The node for a key: the one that carries it, or a new one. */
    method NodeFor(existing: map<string, Node>, k: string) returns (node: Node)
      modifies this`key
      ensures k in existing ==> node == existing[k] && key == old(key)
      ensures k !in existing ==> node !in old(key) && key == old(key)[node := k]
    {
      if k in existing {
        node := existing[k];
      } else {
        node := FreshNode(key);
        key := key[node := k];
      }
    }

    /** Put `node` where the cursor stands, taking it from wherever it is, and return the cursor's next
        place. */
    method Place(node: Node, cursor: Option<Node>, ghost placed: seq<Node>, ghost rest: seq<Node>)
      returns (next: Option<Node>)
      requires children == placed + rest && Distinct(children)
      requires cursor == Head(rest)
      modifies this`children
      ensures children == Without(placed, node) + [node] + Without(rest, node)
      ensures next == Head(Without(rest, node))
    {
      if cursor == Some(node) {
        HeadTaken(placed, rest);
        next := Next(node);
      } else {
        Moved(placed, rest, node);
        InsertBefore(node, cursor);
        next := cursor;
      }
    }

    /** Bring the children in line with items of the given raw keys. Whatever the keys: every item's key
        has a node, a key that a child carries keeps that child's node, every other node is one never
        used before, and no other child stays. The children are the items' nodes in item order, one for
        each, if and only if the raw keys are separate. */
    method Reconcile(raws: seq<string>)
      requires Valid()
      modifies this
      ensures Shows(old(children), old(key), key, FinalKeys(raws), children)
      ensures Valid() && |children| == |raws| <==> Separate(raws)
      ensures Separate(raws) ==> InOrder(key, FinalKeys(raws), children)
    {
      ghost var keys := FinalKeys(raws);
      var existing := IndexChildren();
      var keep, placed, rest := PlaceAll(raws, existing);
      InLineStale(old(children), old(key), existing, key, keys, placed, rest);
      KeptSet(keys, keep);
      RemoveStale(existing, keep, placed, rest);
      FinalKeysNotBuiltIn(raws);
      OutcomeIff(old(children), old(key), existing, key, keys, placed, rest);
      DistinctIffSeparate(raws);
    }

    /** The pass over the items: every item's node is put behind those placed before. */
    method PlaceAll(raws: seq<string>, existing: map<string, Node>)
      returns (keep: set<string>, ghost placed: seq<Node>, ghost rest: seq<Node>)
      requires Valid() && Indexes(existing, children, key)
      modifies this
      ensures children == placed + rest && keep == Elements(FinalKeys(raws))
      ensures InLine(old(children), old(key), existing, key, FinalKeys(raws), placed, rest)
    {
      ghost var keys := FinalKeys(raws);
      keep := {};
      var cursor := if children == [] then None else Some(children[0]);
      placed, rest := [], children;
      var index := 0;
      while index < |raws|
        invariant 0 <= index <= |raws|
        invariant children == placed + rest && cursor == Head(rest) && keep == Elements(keys[..index])
        invariant InLine(old(children), old(key), existing, key, keys[..index], placed, rest)
      {
        var k := FinalKey(raws[index], index, keep);
        NextFinalKey(raws, index, keep);
        var node;
        node, cursor := PlaceItem(k, existing, cursor, old(children), old(key), keys[..index], placed, rest);
        keep := keep + {k};
        placed, rest := Without(placed, node) + [node], Without(rest, node);
        index := index + 1;
      }
      WholePrefix(keys);
    }

    /** One item of the pass. */
    method PlaceItem(k: string, existing: map<string, Node>, cursor: Option<Node>, ghost start: seq<Node>,
                     ghost key0: map<Node, string>, ghost keys: seq<string>, ghost placed: seq<Node>,
                      ghost rest: seq<Node>)
      returns (node: Node, next: Option<Node>)
      requires children == placed + rest && cursor == Head(rest)
      requires InLine(start, key0, existing, key, keys, placed, rest)
      modifies this
      ensures children == Without(placed, node) + [node] + Without(rest, node) && next == Head(Without(rest, node))
      ensures InLine(start, key0, existing, key, keys + [k], Without(placed, node) + [node], Without(rest, node))
    {
      ghost var before := key;
      node := NodeFor(existing, k);
      PlaceNext(start, key0, existing, before, key, keys, placed, rest, k, node);
      next := Place(node, cursor, placed, rest);
    }

    /** `data-key` to child, for the children there now. */
    method IndexChildren() returns (existing: map<string, Node>)
      requires Valid()
      ensures Indexes(existing, children, key)
    {
      existing := map[];
      var i := 0;
      while i < |children|
        invariant 0 <= i <= |children|
        invariant forall k :: k in existing ==> existing[k] in children && key[existing[k]] == k
        invariant forall j :: 0 <= j < i ==> key[children[j]] in existing && existing[key[children[j]]] == children[j]
      {
        existing := existing[key[children[i]] := children[i]];
        i := i + 1;
      }
    }

    /** Remove every child whose key was not kept. */
    method RemoveStale(existing: map<string, Node>, keep: set<string>, ghost placed: seq<Node>, ghost rest: seq<Node>)
      requires children == placed + rest && Distinct(children)
      requires forall n :: n in rest ==> n in key && key[n] in existing && existing[key[n]] == n && key[n] !in keep
      requires forall k :: k in existing && k !in keep ==> existing[k] !in placed
      modifies this`children
      ensures children == placed
    {
      var todo := existing.Keys;
      ghost var left := rest;
      while todo != {}
        invariant todo <= existing.Keys
        invariant children == placed + left
        invariant forall n :: n in left ==> n in rest && key[n] in todo
        decreases |todo|
      {
        var k :| k in todo;
        todo := todo - {k};
        if k !in keep {
          children := Without(children, existing[k]);
          WithoutConcat(placed, left, existing[k]);
          WithoutAbsent(placed, existing[k]);
          forall n ensures n in Without(left, existing[k]) <==> n in left && n != existing[k] {
            WithoutMember(left, existing[k], n);
          }
          left := Without(left, existing[k]);
        }
      }
      if left != [] {
        NonEmptyHasMember(left);
        assert false;
      }
      assert placed + [] == placed;
    }
  }

  lemma NextFinalKey(raws: seq<string>, index: nat, keep: set<string>)
    requires index < |raws| && keep == Elements(FinalKeys(raws)[..index])
    ensures var k := FinalKey(raws[index], index, keep); var keys := FinalKeys(raws);
      keys[..index + 1] == keys[..index] + [k] && Elements(keys[..index + 1]) == keep + {k}
  {
    FinalKeyAt(raws, index);
    NextPrefix(FinalKeys(raws), index);
    ElementsPush(FinalKeys(raws)[..index], FinalKeys(raws)[index]);
  }

  /** One more item, under the node `NodeFor` gave. */
  lemma PlaceNext(start: seq<Node>, key0: map<Node, string>, existing: map<string, Node>, before: map<Node, string>,
                  key: map<Node, string>, keys: seq<string>, placed: seq<Node>, rest: seq<Node>, k: string, node: Node)
    requires InLine(start, key0, existing, before, keys, placed, rest)
    requires k in existing ==> node == existing[k] && key == before
    requires k !in existing ==> node !in before && key == before[node := k]
    ensures InLine(start, key0, existing, key, keys + [k], Without(placed, node) + [node], Without(rest, node))
  {
    assert NodeGiven(existing, before, key, k, node);
    InLineStep(start, key0, existing, before, key, keys, placed, rest, k, node);
  }

  lemma KeptSet(keys: seq<string>, keep: set<string>)
    requires keep == Elements(keys)
    ensures forall k :: k in keep <==> k in keys
  {
  }

  /** A node that does not exist yet. */
  method FreshNode(key: map<Node, string>) returns (node: Node)
    ensures node !in key
  {
    var top: nat := 0;
    var todo := key.Keys;
    while todo != {}
      invariant todo <= key.Keys
      invariant forall n :: n in key && n !in todo ==> n < top
      decreases |todo|
    {
      var n :| n in todo;
      if n >= top {
        top := n + 1;
      }
      todo := todo - {n};
    }
    node := top;
  }

  lemma NonEmptyHasMember(s: seq<Node>)
    requires s != []
    ensures exists n :: n in s
  {
    assert s[0] in s;
  }

  lemma {:induction false} IndexBehind(placed: seq<Node>, rest: seq<Node>)
    requires rest != [] && rest[0] !in placed
    ensures IndexOfNode(placed + rest, rest[0]) == |placed|
    decreases |placed|
  {
    if placed == [] {
      assert placed + rest == rest;
    } else {
      assert (placed + rest)[1..] == placed[1..] + rest && placed[0] in placed;
      assert rest[0] !in placed[1..];
      IndexBehind(placed[1..], rest);
    }
  }

  lemma HeadTaken(placed: seq<Node>, rest: seq<Node>)
    requires rest != [] && Distinct(placed + rest)
    ensures IndexOfNode(placed + rest, rest[0]) == |placed|
    ensures Without(rest, rest[0]) == rest[1..] && Without(placed, rest[0]) == placed
    ensures placed + rest == placed + [rest[0]] + rest[1..]
  {
    DistinctSplit(placed, rest);
    IndexBehind(placed, rest);
    HeadNotInTail(rest);
    WithoutAbsent(rest[1..], rest[0]);
    WithoutAbsent(placed, rest[0]);
    HeadMoves(placed, rest);
  }

  lemma HeadMoves<T>(a: seq<T>, b: seq<T>)
    requires b != []
    ensures a + b == a + [b[0]] + b[1..]
  {
  }

  lemma HeadNotInTail(s: seq<Node>)
    requires s != [] && Distinct(s)
    ensures s[0] !in s[1..]
  {
  }

  lemma Moved(placed: seq<Node>, rest: seq<Node>, node: Node)
    requires Distinct(placed + rest)
    requires rest != [] ==> rest[0] != node
    ensures var moved := Without(placed + rest, node); var front := Without(placed, node);
      && moved == front + Without(rest, node)
      && (rest != [] ==> IndexOfNode(moved, rest[0]) == |front|)
      && (rest != [] ==> Without(rest, node) != [] && Without(rest, node)[0] == rest[0])
      && (rest == [] ==> moved == front)
  {
    WithoutConcat(placed, rest, node);
    if rest != [] {
      var front := Without(placed, node);
      var moved := front + Without(rest, node);
      assert moved[|front|] == rest[0];
      WithoutDistinct(placed + rest, node);
    }
  }
}
