/**
 The table of WebDAV locks: exclusive or shared, on one path key or on a whole tree, each with an
 expiry date or without (sections 6.2, 7.4 and 9.10.5 of RFC 4918).

 Each call is specified by `Apply`, a function on tables; `LockManager` implements it in place.
 The theorems are about `Run`, any sequence of calls in clock order.
 */
module Locks {
  import opened Sequences
  import opened Sets
  import opened Sorting
  import opened Text

  const MAX_LOCKS: nat := 10_000

  datatype Scope = Exclusive | Shared

  datatype Lock = Lock(
    token: string,
    key: string,
    rootHref: string,
    scope: Scope,
    infiniteDepth: bool,
    ownerXml: string,
    timeout: int,
    expires: Option<int>,
    principal: string)
  {
    predicate Expired(now: int) {
      expires.Some? && expires.value <= now
    }

    /** The region a lock protects: its own key and, at infinite depth, everything below. */
    predicate Covers(k: string) {
      key == k || (infiniteDepth && IsChild(key, k))
    }
  }

  /** Lock token to lock. */
  type Table = map<string, Lock>

  /** `child` is strictly below `parent`; `\0` separates a path from the user it belongs to. */
  predicate IsChild(parent: string, child: string) {
    if parent == "/" then child != "/"
    else parent < child && (child[|parent|] == '/' || child[|parent|] == '\0')
  }

  // --- the calls ------------------------------------------------------------------------

  datatype Op =
    | Acquire(key: string, rootHref: string, scope: Scope, infiniteDepth: bool,
              ownerXml: string, timeout: int, principal: string, token: string)
    | CheckWrite(key: string, infinite: bool, tokens: seq<string>, principal: string)
    | IndirectTokens(key: string, principal: string)
    | LocksOn(key: string)
    | Refresh(token: string, timeout: int)
    | Get(token: string)
    | Release(token: string)
    | RemoveTree(key: string)

  /** A call with the clock readings it makes: `now` when it purges, `later` when it dates a lock. */
  datatype Call = Call(op: Op, now: int, later: int)

  datatype Reply =
    | Granted(lock: Lock)
    | Conflict(hrefs: set<string>)
    | TooMany
    | Allowed
    | Tokens(tokens: set<string>)
    | LocksAre(locks: set<Lock>)
    | Found(found: Option<Lock>)
    | Done

  function Live(m: Table, now: int): Table {
    map t | t in m && !m[t].Expired(now) :: m[t]
  }

  function Expiry(timeout: int, now: int): Option<int> {
    if timeout >= 0 then Some(now + timeout) else None
  }

  predicate BlocksAcquire(l: Lock, key: string, scope: Scope, infiniteDepth: bool) {
    if l.Covers(key) then !(l.scope == Shared && scope == Shared)
    else infiniteDepth && IsChild(key, l.key)
  }

  predicate BlocksWrite(l: Lock, key: string, infinite: bool, tokens: seq<string>, principal: string) {
    && (l.Covers(key) || (infinite && IsChild(key, l.key)))
    && !(l.Covers(key) && l.principal == principal && l.token in tokens)
  }

  function AcquireConflicts(m: Table, key: string, scope: Scope, infiniteDepth: bool): set<string> {
    Roots(m, {}, AcquireTest(key, scope, infiniteDepth))
  }

  function WriteConflicts(m: Table, key: string, infinite: bool, tokens: seq<string>, principal: string)
    : set<string>
  {
    Roots(m, {}, WriteTest(key, infinite, tokens, principal))
  }

  function AcquireTest(key: string, scope: Scope, infiniteDepth: bool): Lock -> bool {
    l => BlocksAcquire(l, key, scope, infiniteDepth)
  }

  function WriteTest(key: string, infinite: bool, tokens: seq<string>, principal: string): Lock -> bool {
    l => BlocksWrite(l, key, infinite, tokens, principal)
  }

  /** The roots of the locks that meet a test, those still to do left out. */
  function Roots(m: Table, todo: set<string>, test: Lock -> bool): set<string> {
    set t | t in m && t !in todo && test(m[t]) :: m[t].rootHref
  }

  lemma RootsOfOneLess(m: Table, todo: set<string>, test: Lock -> bool, t: string)
    requires t in m && t in todo
    ensures Roots(m, todo - {t}, test) == Roots(m, todo, test) + if test(m[t]) then {m[t].rootHref} else {}
  {
  }

  function NewLock(op: Op, later: int): Lock
    requires op.Acquire?
  {
    Lock(op.token, op.key, op.rootHref, op.scope, op.infiniteDepth, op.ownerXml, op.timeout,
         Expiry(op.timeout, later), op.principal)
  }

  predicate InTree(l: Lock, key: string) {
    l.key == key || IsChild(key, l.key)
  }

  function WithoutTree(m: Table, key: string): Table {
    map t | t in m && !InTree(m[t], key) :: m[t]
  }

  function LocksRooted(m: Table, key: string): set<Lock> {
    set t | t in m && m[t].key == key :: m[t]
  }

  function HeldTokens(m: Table, key: string, principal: string): set<string> {
    set t | t in m && m[t].principal == principal && m[t].Covers(key) :: m[t].token
  }

  /** What one call does to the table and what it answers. */
  function Apply(m: Table, c: Call): (Table, Reply) {
    var live := Live(m, c.now);
    match c.op
    case Acquire(key, _, scope, infiniteDepth, _, _, _, token) =>
      if |live| >= MAX_LOCKS then (live, TooMany)
      else
        var conflicts := AcquireConflicts(live, key, scope, infiniteDepth);
        if conflicts != {} then (live, Conflict(conflicts))
        else (live[token := NewLock(c.op, c.later)], Granted(NewLock(c.op, c.later)))
    case CheckWrite(key, infinite, tokens, principal) =>
      var conflicts := WriteConflicts(live, key, infinite, tokens, principal);
      (live, if conflicts == {} then Allowed else Conflict(conflicts))
    case IndirectTokens(key, principal) =>
      (live, Tokens(HeldTokens(live, key, principal)))
    case LocksOn(key) =>
      (live, LocksAre(LocksRooted(live, key)))
    case Refresh(token, timeout) =>
      if token !in live then (live, Found(None))
      else
        var l := live[token].(timeout := timeout, expires := Expiry(timeout, c.later));
        (live[token := l], Found(Some(l)))
    case Get(token) =>
      (live, Found(if token in live then Some(live[token]) else None))
    case Release(token) => (m - {token}, Done)
    case RemoveTree(key) => (WithoutTree(m, key), Done)
  }

  /** The table after a sequence of calls. */
  function Run(m: Table, calls: seq<Call>): Table
    decreases |calls|
  {
    if calls == [] then m else Run(Apply(m, calls[0]).0, calls[1..])
  }

  /** The answers of a sequence of calls. */
  function Replies(m: Table, calls: seq<Call>): seq<Reply>
    decreases |calls|
  {
    if calls == [] then [] else [Apply(m, calls[0]).1] + Replies(Apply(m, calls[0]).0, calls[1..])
  }

  /** Calls take the table's mutex one after the other and the clock never goes back. */
  predicate InClockOrder(calls: seq<Call>, from: int) {
    calls == [] || (from <= calls[0].now <= calls[0].later && InClockOrder(calls[1..], calls[0].later))
  }

  // --- the table in place ---------------------------------------------------------------

  class LockManager {
    var locks: Table

    constructor ()
      ensures locks == map[] && Valid()
    {
      locks := map[];
    }

    /** Locks sit under their tokens. */
    ghost predicate Valid()
      reads this
    {
      forall t :: t in locks ==> locks[t].token == t
    }

    method Purge(now: int)
      modifies this
      ensures locks == Live(old(locks), now)
      ensures forall t :: t in locks <==> t in old(locks) && !old(locks)[t].Expired(now)
      ensures forall t :: t in locks ==> locks[t] == old(locks)[t]
    {
      locks := map t | t in locks && !locks[t].Expired(now) :: locks[t];
    }

    /** The roots of the locks in the way of a write by `principal` to `key`, or to all of its tree; none
        when it may go ahead. */
    method CheckWrite(key: string, infinite: bool, tokens: seq<string>, principal: string, now: int)
      returns (conflicts: seq<string>)
      modifies this
      ensures old(Valid()) ==> Valid()
      ensures Sorted(conflicts)
      ensures forall later: int ::
        Apply(old(locks), Call(Op.CheckWrite(key, infinite, tokens, principal), now, later))
        == (locks, if conflicts == [] then Allowed else Conflict(Elements(conflicts)))
    {
      Purge(now);
      conflicts := BlockingWrite(key, infinite, tokens, principal);
      NoElements(conflicts);
    }

    /** The roots of the locks in the way of a write, in order. */
    method BlockingWrite(key: string, infinite: bool, tokens: seq<string>, principal: string)
      returns (conflicts: seq<string>)
      ensures Sorted(conflicts) && Elements(conflicts) == WriteConflicts(locks, key, infinite, tokens, principal)
    {
      ghost var test := WriteTest(key, infinite, tokens, principal);
      var pushed: seq<string> := [];
      var todo := locks.Keys;
      while todo != {}
        invariant todo <= locks.Keys && Elements(pushed) == Roots(locks, todo, test)
        decreases |todo|
      {
        var t :| t in todo;
        RootsOfOneLess(locks, todo, test, t);
        var l := locks[t];
        var direct := l.key == key;
        var viaParent := l.infiniteDepth && IsChild(l.key, key);
        var below := infinite && IsChild(key, l.key);
        if direct || viaParent || below {
          if !((direct || viaParent) && l.principal == principal && l.token in tokens) {
            ElementsPush(pushed, l.rootHref);
            pushed := pushed + [l.rootHref];
          }
        }
        todo := todo - {t};
      }
      SortDedupKeeps(pushed);
      conflicts := SortDedup(pushed);
    }

    /** The roots of the locks in the way of a new one, in order. */
    method BlockingAcquire(key: string, scope: Scope, infiniteDepth: bool) returns (conflicts: seq<string>)
      ensures Sorted(conflicts) && Elements(conflicts) == AcquireConflicts(locks, key, scope, infiniteDepth)
    {
      ghost var test := AcquireTest(key, scope, infiniteDepth);
      var pushed: seq<string> := [];
      var todo := locks.Keys;
      while todo != {}
        invariant todo <= locks.Keys && Elements(pushed) == Roots(locks, todo, test)
        decreases |todo|
      {
        var t :| t in todo;
        RootsOfOneLess(locks, todo, test, t);
        var l := locks[t];
        var direct := l.key == key;
        var viaParent := l.infiniteDepth && IsChild(l.key, key);
        var below := infiniteDepth && IsChild(key, l.key);
        if direct || viaParent {
          if !(l.scope == Shared && scope == Shared) {
            ElementsPush(pushed, l.rootHref);
            pushed := pushed + [l.rootHref];
          }
        } else if below {
          ElementsPush(pushed, l.rootHref);
          pushed := pushed + [l.rootHref];
        }
        todo := todo - {t};
      }
      SortDedupKeeps(pushed);
      conflicts := SortDedup(pushed);
    }

    /** `conflicts` lists the roots in the way when the reply is a conflict. */
    method Acquire(key: string, rootHref: string, scope: Scope, infiniteDepth: bool, ownerXml: string,
                   timeout: int, principal: string, token: string, now: int, later: int)
      returns (reply: Reply, conflicts: seq<string>)
      modifies this
      ensures old(Valid()) ==> Valid()
      ensures (locks, reply) == Apply(old(locks), Call(
        Op.Acquire(key, rootHref, scope, infiniteDepth, ownerXml, timeout, principal, token), now, later))
      ensures Sorted(conflicts) && (reply.Conflict? ==> reply == Conflict(Elements(conflicts)))
    {
      Purge(now);
      if |locks| >= MAX_LOCKS {
        return TooMany, [];
      }
      conflicts := BlockingAcquire(key, scope, infiniteDepth);
      NoElements(conflicts);
      if conflicts != [] {
        return Conflict(Elements(conflicts)), conflicts;
      }
      var lock := Lock(token, key, rootHref, scope, infiniteDepth, ownerXml, timeout,
                       if timeout >= 0 then Some(later + timeout) else None, principal);
      locks := locks[token := lock];
      reply := Granted(lock);
    }

    /** The tokens `principal` holds on locks that protect `key`. */
    method IndirectTokens(key: string, principal: string, now: int) returns (tokens: set<string>)
      modifies this
      ensures forall later: int ::
        (locks, Tokens(tokens)) == Apply(old(locks), Call(Op.IndirectTokens(key, principal), now, later))
    {
      Purge(now);
      tokens := set t | t in locks && locks[t].principal == principal
                        && (locks[t].key == key || (locks[t].infiniteDepth && IsChild(locks[t].key, key)))
                     :: locks[t].token;
      assert tokens == HeldTokens(locks, key, principal);
    }

    /** The locks rooted on `key`, by token. */
    method LocksOn(key: string, now: int) returns (found: seq<Lock>)
      requires Valid()
      modifies this
      ensures Valid()
      ensures forall later: int ::
        (locks, LocksAre(set l | l in found)) == Apply(old(locks), Call(Op.LocksOn(key), now, later))
      ensures forall l :: l in found <==>
        l.token in old(locks) && old(locks)[l.token] == l && !l.Expired(now) && l.key == key
      ensures forall i, j :: 0 <= i < j < |found| ==> Less(found[i].token, found[j].token)
    {
      Purge(now);
      var tokens := RootedOn(key);
      found := seq(|tokens|, i requires 0 <= i < |tokens| && tokens[i] in locks reads this => locks[tokens[i]]);
      forall l ensures l in found <==> l.token in locks && locks[l.token] == l && l.key == key {
        if l.token in locks && locks[l.token] == l && l.key == key {
          assert l.token in Elements(tokens);
          var i :| 0 <= i < |tokens| && tokens[i] == l.token;
          assert found[i] == l;
        }
      }
      assert (set l | l in found) == LocksRooted(locks, key);
    }

    /** The tokens of the locks rooted on `key`, in order. */
    method RootedOn(key: string) returns (tokens: seq<string>)
      ensures Sorted(tokens) && Elements(tokens) == set t | t in locks && locks[t].key == key
      ensures forall i :: 0 <= i < |tokens| ==> tokens[i] in locks && locks[tokens[i]].key == key
    {
      var pushed: seq<string> := [];
      var todo := locks.Keys;
      while todo != {}
        invariant todo <= locks.Keys
        invariant Elements(pushed) == set t | t in locks && t !in todo && locks[t].key == key
        decreases |todo|
      {
        var t :| t in todo;
        if locks[t].key == key {
          ElementsPush(pushed, t);
          pushed := pushed + [t];
        }
        todo := todo - {t};
      }
      SortDedupKeeps(pushed);
      tokens := SortDedup(pushed);
      assert Elements(pushed) == set t | t in locks && locks[t].key == key;
      assert forall i :: 0 <= i < |tokens| ==> tokens[i] in Elements(tokens);
    }

    method Refresh(token: string, timeout: int, now: int, later: int) returns (lock: Option<Lock>)
      modifies this
      ensures old(Valid()) ==> Valid()
      ensures (locks, Found(lock)) == Apply(old(locks), Call(Op.Refresh(token, timeout), now, later))
      ensures lock.Some? <==> token in old(locks) && !old(locks)[token].Expired(now)
      ensures lock.Some? ==> SameGrant(old(locks)[token], lock.value) && token in locks && locks[token] == lock.value
      ensures forall t :: t != token ==> (t in locks <==> t in old(locks) && !old(locks)[t].Expired(now))
      ensures forall t :: t in locks && t != token ==> locks[t] == old(locks)[t]
    {
      Purge(now);
      if token !in locks {
        return None;
      }
      var l := locks[token].(timeout := timeout, expires := if timeout >= 0 then Some(later + timeout) else None);
      locks := locks[token := l];
      lock := Some(l);
    }

    method Get(token: string, now: int) returns (lock: Option<Lock>)
      modifies this
      ensures old(Valid()) ==> Valid()
      ensures forall later: int :: (locks, Found(lock)) == Apply(old(locks), Call(Op.Get(token), now, later))
      ensures forall l :: lock == Some(l) <==> token in old(locks) && old(locks)[token] == l && !l.Expired(now)
    {
      Purge(now);
      lock := if token in locks then Some(locks[token]) else None;
    }

    method Release(token: string)
      modifies this
      ensures old(Valid()) ==> Valid()
      ensures forall now: int, later: int :: (locks, Done) == Apply(old(locks), Call(Op.Release(token), now, later))
      ensures forall t :: t in locks <==> t in old(locks) && t != token
      ensures forall t :: t in locks ==> locks[t] == old(locks)[t]
    {
      locks := locks - {token};
    }

    method RemoveTree(key: string)
      modifies this
      ensures old(Valid()) ==> Valid()
      ensures forall now: int, later: int :: (locks, Done) == Apply(old(locks), Call(Op.RemoveTree(key), now, later))
      ensures forall t :: t in locks <==>
        t in old(locks) && old(locks)[t].key != key && !IsChild(key, old(locks)[t].key)
      ensures forall t :: t in locks ==> locks[t] == old(locks)[t]
    {
      locks := map t | t in locks && !(locks[t].key == key || IsChild(key, locks[t].key)) :: locks[t];
      assert locks == WithoutTree(old(locks), key);
    }
  }

  // --- paths ----------------------------------------------------------------------------

  /** Two keys that are both above one key are equal or one is above the other. */
  lemma AncestorsNest(a: string, b: string, k: string)
    requires IsChild(a, k) && IsChild(b, k)
    ensures a == b || IsChild(a, b) || IsChild(b, a)
  {
    if a != "/" && b != "/" {
      if |a| == |b| {
        assert a == k[..|a|] == b;
      } else if |a| < |b| {
        assert b[..|a|] == k[..|a|] == a;
        assert b[|a|] == k[|a|];
      } else {
        assert a[..|b|] == k[..|b|] == b;
        assert a[|b|] == k[|b|];
      }
    }
  }

  /** The test `acquire` makes is exactly "the two regions share a key". */
  lemma OverlapIffNested(l: Lock, n: Lock)
    ensures (exists k: string :: l.Covers(k) && n.Covers(k))
       <==> (l.Covers(n.key) || n.Covers(l.key))
  {
    if k: string :| l.Covers(k) && n.Covers(k) {
      if l.key != k && n.key != k {
        AncestorsNest(l.key, n.key, k);
      }
    }
    if l.Covers(n.key) {
      assert n.Covers(n.key);
    }
    if n.Covers(l.key) {
      assert l.Covers(l.key);
    }
  }

  // --- mutual exclusion in every reachable table ----------------------------------------

  ghost predicate Overlap(l: Lock, n: Lock) {
    exists k: string :: l.Covers(k) && n.Covers(k)
  }

  /** Distinct locks whose regions share any key are both shared, and locks sit under their token. */
  ghost predicate Consistent(m: Table) {
    && (forall t :: t in m ==> m[t].token == t)
    && forall s, t :: s in m && t in m && s != t && Overlap(m[s], m[t]) ==> m[s].scope == Shared && m[t].scope == Shared
  }

  lemma ConsistentSubset(m: Table, n: Table)
    requires Consistent(m)
    requires forall t :: t in n ==> t in m && m[t] == n[t]
    ensures Consistent(n)
  {
  }

  /** Only the dates of a lock changed: its region, scope and owner are the same. */
  predicate SameGrant(l: Lock, r: Lock) {
    r == l.(timeout := r.timeout, expires := r.expires)
  }

  lemma SameGrantSameRegion(l: Lock, r: Lock, n: Lock)
    requires SameGrant(l, r)
    ensures Overlap(l, n) <==> Overlap(r, n)
    ensures Overlap(n, l) <==> Overlap(n, r)
  {
    assert forall k: string :: l.Covers(k) <==> r.Covers(k);
  }

  /** No lock root is reported exactly when no lock blocks. */
  lemma NoConflictIff(m: Table, key: string, scope: Scope, deep: bool, tokens: seq<string>, principal: string)
    ensures AcquireConflicts(m, key, scope, deep) == {} <==>
      forall t :: t in m ==> !BlocksAcquire(m[t], key, scope, deep)
    ensures WriteConflicts(m, key, deep, tokens, principal) == {}
       <==> forall t :: t in m ==> !BlocksWrite(m[t], key, deep, tokens, principal)
  {
    var acquire := AcquireConflicts(m, key, scope, deep);
    var write := WriteConflicts(m, key, deep, tokens, principal);
    assert forall t :: t in m && BlocksAcquire(m[t], key, scope, deep) ==> m[t].rootHref in acquire;
    assert forall t :: t in m && BlocksWrite(m[t], key, deep, tokens, principal) ==> m[t].rootHref in write;
  }

  /** The grant rule, both ways: there is room, and every live lock whose region shares a key with the
      new one covers the new root and is shared, as the new one is. (A shared lock strictly below a new
      depth-infinity one is in the way.) A grant adds exactly the new lock to the live ones. */
  lemma AcquireGrantedIff(m: Table, c: Call)
    requires c.op.Acquire?
    ensures var n := NewLock(c.op, c.later); var live := Live(m, c.now);
      && (Apply(m, c).1.Granted? <==>
            |live| < MAX_LOCKS
            && forall t :: t in live && Overlap(live[t], n) ==>
                 live[t].Covers(c.op.key) && live[t].scope == Shared && c.op.scope == Shared)
      && Apply(m, c).0 == if Apply(m, c).1.Granted? then live[n.token := n] else live
  {
    var n, live := NewLock(c.op, c.later), Live(m, c.now);
    NoConflictIff(live, c.op.key, c.op.scope, c.op.infiniteDepth, [], "");
    forall t | t in live ensures Overlap(live[t], n) <==> live[t].Covers(n.key) || n.Covers(live[t].key) {
      OverlapIffNested(live[t], n);
    }
  }

  /** A shared lock on `/a/b` is in the way of a shared one on all of `/a`. */
  lemma SharedBelowBlocksDeep()
    ensures
      var below := Lock("t", "/a/b", "/a/b", Shared, false, "", -1, None, "x");
      var deep := Op.Acquire("/a", "/a", Shared, true, "", -1, "y", "u");
      Apply(map["t" := below], Call(deep, 0, 0)).1 == Conflict({"/a/b"})
  {
    var below := Lock("t", "/a/b", "/a/b", Shared, false, "", -1, None, "x");
    assert IsChild("/a", "/a/b") by {
      assert "/a/b"[..2] == "/a";
    }
    assert Live(map["t" := below], 0) == map["t" := below];
    var m, test := map["t" := below], AcquireTest("/a", Shared, true);
    assert below.key != "/a" && test(below);
    assert "t" in m && m["t"] == below;
    assert Roots(m, {}, test) == {below.rootHref};
  }

  lemma GrantConsistent(live: Table, n: Lock, deep: bool)
    requires Consistent(live) && n.infiniteDepth == deep
    requires forall t :: t in live ==> !BlocksAcquire(live[t], n.key, n.scope, deep)
    ensures Consistent(live[n.token := n])
  {
    forall t | t in live && (Overlap(live[t], n) || Overlap(n, live[t]))
      ensures live[t].scope == Shared && n.scope == Shared
    {
      OverlapIffNested(live[t], n);
    }
  }

  lemma RefreshConsistent(live: Table, token: string, r: Lock)
    requires Consistent(live) && token in live && SameGrant(live[token], r)
    ensures Consistent(live[token := r])
  {
    forall t | t in live
      ensures Overlap(live[token], live[t]) <==> Overlap(r, live[t])
      ensures Overlap(live[t], live[token]) <==> Overlap(live[t], r)
    {
      SameGrantSameRegion(live[token], r, live[t]);
    }
  }

  lemma ApplyConsistent(m: Table, c: Call)
    requires Consistent(m)
    ensures Consistent(Apply(m, c).0)
  {
    var live, after := Live(m, c.now), Apply(m, c).0;
    ConsistentSubset(m, live);
    if c.op.Acquire? && Apply(m, c).1.Granted? {
      NoConflictIff(live, c.op.key, c.op.scope, c.op.infiniteDepth, [], "");
      GrantConsistent(live, NewLock(c.op, c.later), c.op.infiniteDepth);
    } else if c.op.Refresh? && c.op.token in live {
      RefreshConsistent(live, c.op.token, after[c.op.token]);
    } else if c.op.Release? || c.op.RemoveTree? {
      ConsistentSubset(m, after);
    }
  }

  lemma {:induction false} RunConsistent(m: Table, calls: seq<Call>)
    requires Consistent(m)
    ensures Consistent(Run(m, calls))
    decreases |calls|
  {
    if calls != [] {
      ApplyConsistent(m, calls[0]);
      RunConsistent(Apply(m, calls[0]).0, calls[1..]);
    }
  }

  /** In every reachable table, two distinct locks whose regions share any key are both shared. */
  lemma MutualExclusion(calls: seq<Call>, s: string, t: string, k: string)
    requires s in Run(map[], calls) && t in Run(map[], calls) && s != t
    requires Run(map[], calls)[s].Covers(k) && Run(map[], calls)[t].Covers(k)
    ensures Run(map[], calls)[s].scope == Shared && Run(map[], calls)[t].scope == Shared
  {
    RunConsistent(map[], calls);
    assert Overlap(Run(map[], calls)[s], Run(map[], calls)[t]);
  }

  // --- write exclusion over runs --------------------------------------------------------

  /** Calls that take the lock with `l`'s token away (or mint its token again). */
  predicate Ends(op: Op, l: Lock) {
    match op
    case Release(token) => token == l.token
    case RemoveTree(key) => InTree(l, key)
    case Acquire(_, _, _, _, _, _, _, token) => token == l.token
    case _ => false
  }

  /** Through all of `calls` the lock is neither ended nor found expired. */
  ghost predicate Undisturbed(m: Table, token: string, calls: seq<Call>)
    decreases |calls|
  {
    calls == [] || (
      && token in m
      && !m[token].Expired(calls[0].now)
      && !Ends(calls[0].op, m[token])
      && Undisturbed(Apply(m, calls[0]).0, token, calls[1..]))
  }

  lemma {:induction false} LockSurvives(m: Table, token: string, calls: seq<Call>)
    requires token in m && m[token].token == token
    requires Undisturbed(m, token, calls)
    ensures token in Run(m, calls) && SameGrant(m[token], Run(m, calls)[token])
    decreases |calls|
  {
    if calls != [] {
      var next := Apply(m, calls[0]).0;
      assert token in Live(m, calls[0].now);
      assert token in next && SameGrant(m[token], next[token]);
      LockSurvives(next, token, calls[1..]);
    }
  }

  /** A key covered by a live lock is written only by that lock's principal presenting its token. */
  lemma CoveredWriteNeedsToken(m: Table, token: string, c: Call)
    requires token in m && !m[token].Expired(c.now)
    requires c.op.CheckWrite? && m[token].Covers(c.op.key)
    requires Apply(m, c).1 == Allowed
    ensures c.op.principal == m[token].principal && m[token].token in c.op.tokens
  {
    var live := Live(m, c.now);
    assert token in live;
    NoConflictIff(live, c.op.key, Shared, c.op.infinite, c.op.tokens, c.op.principal);
  }

  /** The write rule, both ways: every live covering lock is the caller's with its token presented,
      and a depth-infinity write has no live lock strictly below it other than those. */
  lemma WriteAllowedIff(m: Table, c: Call)
    requires c.op.CheckWrite?
    ensures Apply(m, c).1 == Allowed <==>
      forall t :: t in m && !m[t].Expired(c.now) ==>
        && (m[t].Covers(c.op.key) ==> m[t].principal == c.op.principal && m[t].token in c.op.tokens)
        && (c.op.infinite && IsChild(c.op.key, m[t].key) ==> m[t].Covers(c.op.key))
  {
    var live := Live(m, c.now);
    NoConflictIff(live, c.op.key, Shared, c.op.infinite, c.op.tokens, c.op.principal);
    assert forall t :: t in live <==> t in m && !m[t].Expired(c.now);
  }

  /** Normalised keys start with `/`: then "below" and "covered from below" exclude each other. */
  lemma ChildIsAsymmetric(a: string, b: string)
    requires a != [] && b != [] && a[0] == '/' && b[0] == '/'
    requires IsChild(a, b)
    ensures a != b && !IsChild(b, a)
  {
    assert b != "/";
  }

  /** A depth-infinity write over normalised keys goes through only with no live lock strictly below. */
  lemma DeepWriteNeedsEmptyTree(m: Table, c: Call, t: string)
    requires c.op.CheckWrite? && c.op.infinite && Apply(m, c).1 == Allowed
    requires c.op.key != [] && c.op.key[0] == '/'
    requires t in m && m[t].key != [] && m[t].key[0] == '/'
    ensures m[t].Expired(c.now) || !IsChild(c.op.key, m[t].key)
  {
    WriteAllowedIff(m, c);
    if !m[t].Expired(c.now) && IsChild(c.op.key, m[t].key) {
      ChildIsAsymmetric(c.op.key, m[t].key);
    }
  }

  /** From the grant of an exclusive lock, through any calls that leave it alone and find it
      unexpired: writes in its region need its owner and token, and no other lock is granted there. */
  lemma ExclusiveLockExcludes(before: seq<Call>, grant: Call, calls: seq<Call>, c: Call)
    requires grant.op.Acquire? && grant.op.scope == Exclusive
    requires Apply(Run(map[], before), grant).1.Granted?
    requires Undisturbed(Apply(Run(map[], before), grant).0, grant.op.token, calls + [c])
    ensures
      var l := NewLock(grant.op, grant.later);
      var r := Apply(Run(Apply(Run(map[], before), grant).0, calls), c).1;
      && (c.op.CheckWrite? && l.Covers(c.op.key) && r == Allowed ==>
           c.op.principal == grant.op.principal && grant.op.token in c.op.tokens)
      && (c.op.Acquire? && Overlap(l, NewLock(c.op, c.later)) ==> !r.Granted?)
  {
    var m0 := Apply(Run(map[], before), grant).0;
    var token := grant.op.token;
    assert m0[token] == NewLock(grant.op, grant.later);
    UndisturbedPrefix(m0, token, calls, c);
    LockSurvives(m0, token, calls);
    RunConsistent(map[], before);
    ApplyConsistent(Run(map[], before), grant);
    RunConsistent(m0, calls);
    ExclusiveStep(Run(m0, calls), token, m0[token], c);
  }

  /** One call on a table with a live exclusive lock that it does not end. */
  lemma ExclusiveStep(m: Table, token: string, l: Lock, c: Call)
    requires Consistent(m) && token in m && SameGrant(l, m[token]) && l.scope == Exclusive
    requires !m[token].Expired(c.now) && !Ends(c.op, m[token])
    ensures c.op.CheckWrite? && l.Covers(c.op.key) && Apply(m, c).1 == Allowed ==>
      c.op.principal == l.principal && l.token in c.op.tokens
    ensures c.op.Acquire? && Overlap(l, NewLock(c.op, c.later)) ==> !Apply(m, c).1.Granted?
  {
    if c.op.CheckWrite? && l.Covers(c.op.key) && Apply(m, c).1 == Allowed {
      assert m[token].Covers(c.op.key);
      CoveredWriteNeedsToken(m, token, c);
    }
    if c.op.Acquire? {
      SameGrantSameRegion(l, m[token], NewLock(c.op, c.later));
      AcquireGrantedIff(m, c);
      assert token in Live(m, c.now);
    }
  }

  lemma {:induction false} UndisturbedPrefix(m: Table, token: string, calls: seq<Call>, c: Call)
    requires Undisturbed(m, token, calls + [c])
    ensures Undisturbed(m, token, calls) && Undisturbed(Run(m, calls), token, [c])
    decreases |calls|
  {
    if calls == [] {
      assert calls + [c] == [c];
    } else {
      assert (calls + [c])[0] == calls[0];
      assert (calls + [c])[1..] == calls[1..] + [c];
      UndisturbedPrefix(Apply(m, calls[0]).0, token, calls[1..], c);
    }
  }

  // --- expired locks --------------------------------------------------------------------

  lemma LiveLater(m: Table, now: int, later: int)
    requires now <= later
    ensures Live(Live(m, now), later) == Live(m, later)
  {
  }

  /** What a call that purges does depends on the live locks only. */
  lemma ApplyOnLive(m: Table, n: Table, c: Call)
    requires Live(m, c.now) == Live(n, c.now) && !c.op.Release? && !c.op.RemoveTree?
    ensures Apply(m, c) == Apply(n, c)
  {
  }

  lemma RemovalOnLive(m: Table, op: Op, from: int, later: int)
    requires from <= later && (op.Release? || op.RemoveTree?)
    ensures var gone := (t: Table) => if op.Release? then t - {op.token} else WithoutTree(t, op.key);
      Live(gone(m), later) == Live(gone(Live(m, from)), later)
  {
  }

  lemma ApplyIgnoresExpired(m: Table, c: Call, from: int)
    requires from <= c.now <= c.later
    ensures Apply(m, c).1 == Apply(Live(m, from), c).1
    ensures Live(Apply(m, c).0, c.later) == Live(Apply(Live(m, from), c).0, c.later)
  {
    if c.op.Release? || c.op.RemoveTree? {
      RemovalOnLive(m, c.op, from, c.later);
    } else {
      LiveLater(m, from, c.now);
      ApplyOnLive(m, Live(m, from), c);
    }
  }

  /** An expired lock never blocks, grants or comes back: striking every lock that is expired now
      from the table changes no answer of any later sequence of calls, whatever they are. */
  lemma {:induction false} ExpiredLocksAreInvisible(m: Table, now: int, calls: seq<Call>)
    requires InClockOrder(calls, now)
    ensures Replies(m, calls) == Replies(Live(m, now), calls)
    decreases |calls|
  {
    if calls != [] {
      var c := calls[0];
      ApplyIgnoresExpired(m, c, now);
      var a, b := Apply(m, c).0, Apply(Live(m, now), c).0;
      ExpiredLocksAreInvisible(a, c.later, calls[1..]);
      ExpiredLocksAreInvisible(b, c.later, calls[1..]);
    }
  }

  // --- per-user keys --------------------------------------------------------------------

  predicate PlainPath(p: string) {
    '\0' !in p
  }

  predicate PlainUser(u: string) {
    '\0' !in u && '/' !in u
  }

  /** The key of a per-user file. */
  function UserKey(path: string, user: string): string {
    path + ['\0'] + user
  }

  lemma UserKeysApart(p: string, u: string, q: string, v: string)
    requires PlainPath(p) && PlainPath(q) && PlainUser(u) && PlainUser(v)
    ensures UserKey(p, u) == UserKey(q, v) ==> p == q && u == v
    ensures !IsChild(UserKey(p, u), UserKey(q, v))
  {
    var a, b := UserKey(p, u), UserKey(q, v);
    assert a[|p|] == '\0' && b[|q|] == '\0';
    assert forall i :: 0 <= i < |p| ==> a[i] == p[i];
    assert forall i :: 0 <= i < |q| ==> b[i] == q[i];
    assert forall i :: 0 <= i < |v| ==> b[|q| + 1 + i] == v[i];
    assert a[|p| + 1..] == u && b[|q| + 1..] == v;
    if a == b {
      assert |p| == |q|;
      assert p == a[..|p|] && q == b[..|q|];
    }
    if a <= b {
      assert b[|p|] == a[|p|] == '\0';
      assert |p| == |q|;
    }
  }

  ghost predicate OwnKey(key: string, user: string) {
    exists p: string :: PlainPath(p) && key == UserKey(p, user)
  }

  ghost predicate OthersKey(key: string, user: string) {
    exists q: string, v: string :: PlainPath(q) && PlainUser(v) && v != user && key == UserKey(q, v)
  }

  /** The locks on other users' files. */
  ghost predicate OthersFile(l: Lock, user: string) {
    OthersKey(l.key, user)
  }

  lemma OwnAndOthersApart(own: string, others: string, user: string)
    requires PlainUser(user) && OwnKey(own, user) && OthersKey(others, user)
    ensures own != others && !IsChild(own, others) && !IsChild(others, own)
  {
    var p: string :| PlainPath(p) && own == UserKey(p, user);
    var q: string, v: string :| PlainPath(q) && PlainUser(v) && v != user && others == UserKey(q, v);
    UserKeysApart(q, v, p, user);
    UserKeysApart(p, user, q, v);
  }

  /** A user's own key, or a shared path without what is below it. */
  ghost predicate OwnView(key: string, deep: bool, user: string) {
    OwnKey(key, user) || (PlainPath(key) && !deep)
  }

  /** No lock on another user's file is in view. */
  lemma OthersOutOfView(key: string, deep: bool, others: string, user: string)
    requires PlainUser(user) && OwnView(key, deep, user) && OthersKey(others, user)
    ensures key != others && !IsChild(others, key) && (deep ==> !IsChild(key, others))
  {
    if OwnKey(key, user) {
      OwnAndOthersApart(key, others, user);
    } else {
      var q: string, v: string :| PlainPath(q) && PlainUser(v) && v != user && others == UserKey(q, v);
      if key == others || IsChild(others, key) {
        TreeHasNul(key, others, q, v);
      }
    }
  }

  lemma TreeHasNul(key: string, others: string, q: string, v: string)
    requires others == UserKey(q, v) && (key == others || IsChild(others, key))
    ensures !PlainPath(key)
  {
    assert others[|q|] == '\0';
    assert key[|q|] == '\0';
  }

  /** The table without the locks on other users' files. */
  ghost function Strike(m: Table, user: string): Table {
    map t | t in m && !OthersFile(m[t], user) :: m[t]
  }

  /** Locks on other users' files never count against a user's file at any depth, nor against a shared path
      at depth zero: the conflicts of an acquire or a write there are those of the table without them. */
  lemma UsersDoNotBlockEachOther(m: Table, key: string, u: string, scope: Scope, deep: bool,
                                 tokens: seq<string>, principal: string)
    requires PlainUser(u) && OwnView(key, deep, u)
    ensures AcquireConflicts(m, key, scope, deep) == AcquireConflicts(Strike(m, u), key, scope, deep)
    ensures WriteConflicts(m, key, deep, tokens, principal)
         == WriteConflicts(Strike(m, u), key, deep, tokens, principal)
  {
    forall t | t in m && OthersFile(m[t], u)
      ensures !BlocksAcquire(m[t], key, scope, deep)
      ensures !BlocksWrite(m[t], key, deep, tokens, principal)
    {
      OthersOutOfView(key, deep, m[t].key, u);
    }
  }

  /** A call about the user's own files, or about a shared path unless it asks about what is below, or by a
      token that is not among `theirs`. A tree may be removed anywhere but below another user's file. */
  ghost predicate OwnCall(op: Op, user: string, theirs: set<string>) {
    match op
    case Acquire(key, _, _, deep, _, _, _, token) => OwnView(key, deep, user) && token !in theirs
    case CheckWrite(key, deep, _, _) => OwnView(key, deep, user)
    case IndirectTokens(key, _) => OwnView(key, false, user)
    case LocksOn(key) => OwnView(key, false, user)
    case RemoveTree(key) => OwnView(key, false, user)
    case Refresh(token, _) => token !in theirs
    case Get(token) => token !in theirs
    case Release(token) => token !in theirs
  }

  /** A call about other users' files, or by one of their tokens. */
  ghost predicate TheirCall(op: Op, user: string, theirs: set<string>) {
    match op
    case Acquire(key, _, _, _, _, _, _, token) => OthersKey(key, user) && token in theirs
    case CheckWrite(key, _, _, _) => OthersKey(key, user)
    case IndirectTokens(key, _) => OthersKey(key, user)
    case LocksOn(key) => OthersKey(key, user)
    case RemoveTree(key) => OthersKey(key, user)
    case Refresh(token, _) => token in theirs
    case Get(token) => token in theirs
    case Release(token) => token in theirs
  }

  /** The locks on other users' files are those under `theirs`; the rest are on own files or shared paths. */
  ghost predicate Apart(m: Table, user: string, theirs: set<string>) {
    forall t :: t in m ==>
      && (t in theirs <==> OthersFile(m[t], user))
      && (t !in theirs ==> OwnKey(m[t].key, user) || PlainPath(m[t].key))
  }

  lemma StrikeLive(m: Table, user: string, now: int)
    ensures Strike(Live(m, now), user) == Live(Strike(m, user), now)
  {
  }

  lemma StrikeIsSmaller(m: Table, user: string)
    ensures |Strike(m, user)| <= |m|
  {
    assert Strike(m, user).Keys <= m.Keys;
    SubsetSize(Strike(m, user).Keys, m.Keys);
  }

  /** Own calls that ask about a key, on a table already purged. */
  lemma OwnQuestions(live: Table, key: string, u: string, principal: string)
    requires PlainUser(u) && OwnView(key, false, u)
    ensures HeldTokens(live, key, principal) == HeldTokens(Strike(live, u), key, principal)
    ensures LocksRooted(live, key) == LocksRooted(Strike(live, u), key)
  {
    forall t | t in live && OthersFile(live[t], u) ensures !live[t].Covers(key) && live[t].key != key {
      OthersOutOfView(key, false, live[t].key, u);
    }
    var own := Strike(live, u);
    assert forall t :: t in own ==> t in live && own[t] == live[t];
    assert forall t :: t in live && (live[t].Covers(key) || live[t].key == key) ==> t in own && own[t] == live[t];
    forall x ensures x in HeldTokens(live, key, principal) <==> x in HeldTokens(own, key, principal) {
      if t :| t in live && live[t].principal == principal && live[t].Covers(key) && live[t].token == x {
        assert own[t].token == x;
      }
    }
    forall l ensures l in LocksRooted(live, key) <==> l in LocksRooted(own, key) {
      if t :| t in live && live[t].key == key && live[t] == l {
        assert own[t] == l;
      }
    }
  }

  lemma OwnAcquire(m: Table, c: Call, u: string, theirs: set<string>)
    requires PlainUser(u) && c.op.Acquire? && OwnCall(c.op, u, theirs)
    requires Apart(m, u, theirs) && |Live(m, c.now)| < MAX_LOCKS
    ensures Apply(m, c).1 == Apply(Strike(m, u), c).1
    ensures Strike(Apply(m, c).0, u) == Apply(Strike(m, u), c).0
    ensures Apart(Apply(m, c).0, u, theirs)
  {
    var live := Live(m, c.now);
    StrikeLive(m, u, c.now);
    LiveApart(m, c.now, u, theirs);
    StrikeIsSmaller(live, u);
    UsersDoNotBlockEachOther(live, c.op.key, u, c.op.scope, c.op.infiniteDepth, [], "");
    GrantIsOwn(live, NewLock(c.op, c.later), u, theirs);
    AcquireSteps(m, c);
    AcquireSteps(Strike(m, u), c);
  }

  lemma AcquireSteps(m: Table, c: Call)
    requires c.op.Acquire? && |Live(m, c.now)| < MAX_LOCKS
    ensures var n, live := NewLock(c.op, c.later), Live(m, c.now);
      var conflicts := AcquireConflicts(live, c.op.key, c.op.scope, c.op.infiniteDepth);
      Apply(m, c) == if conflicts == {} then (live[n.token := n], Granted(n)) else (live, Conflict(conflicts))
  {
  }

  lemma OwnAsks(m: Table, c: Call, u: string, theirs: set<string>)
    requires PlainUser(u) && (c.op.CheckWrite? || c.op.IndirectTokens? || c.op.LocksOn?)
    requires OwnView(c.op.key, c.op.CheckWrite? && c.op.infinite, u)
    ensures Apply(m, c).1 == Apply(Strike(m, u), c).1
    ensures Apply(m, c).0 == Live(m, c.now) && Apply(Strike(m, u), c).0 == Live(Strike(m, u), c.now)
  {
    var live := Live(m, c.now);
    StrikeLive(m, u, c.now);
    if c.op.CheckWrite? {
      UsersDoNotBlockEachOther(live, c.op.key, u, Shared, c.op.infinite, c.op.tokens, c.op.principal);
    } else {
      OwnQuestions(live, c.op.key, u, if c.op.IndirectTokens? then c.op.principal else "");
    }
  }

  lemma LiveApart(m: Table, now: int, u: string, theirs: set<string>)
    requires Apart(m, u, theirs)
    ensures Apart(Live(m, now), u, theirs)
  {
  }

  const NO_LOCK := Lock("", "", "", Shared, false, "", 0, None, "")

  /** A lock under an own token, found and changed. */
  lemma OwnToken(live: Table, token: string, r: Lock, u: string, theirs: set<string>)
    requires Apart(live, u, theirs) && token !in theirs
    ensures token in live <==> token in Strike(live, u)
    ensures token in live ==> Strike(live, u)[token] == live[token]
    ensures token in live && r.key == live[token].key ==>
      Strike(live[token := r], u) == Strike(live, u)[token := r] && Apart(live[token := r], u, theirs)
    ensures Strike(live - {token}, u) == Strike(live, u) - {token}
  {
  }

  lemma OwnGet(m: Table, c: Call, u: string, theirs: set<string>)
    requires c.op.Get? && c.op.token !in theirs && Apart(m, u, theirs)
    ensures Apply(m, c).1 == Apply(Strike(m, u), c).1
    ensures Strike(Apply(m, c).0, u) == Apply(Strike(m, u), c).0
    ensures Apart(Apply(m, c).0, u, theirs)
  {
    StrikeLive(m, u, c.now);
    LiveApart(m, c.now, u, theirs);
    OwnToken(Live(m, c.now), c.op.token, NO_LOCK, u, theirs);
  }

  lemma OwnRelease(m: Table, c: Call, u: string, theirs: set<string>)
    requires c.op.Release? && c.op.token !in theirs && Apart(m, u, theirs)
    ensures Apply(m, c).1 == Apply(Strike(m, u), c).1
    ensures Strike(Apply(m, c).0, u) == Apply(Strike(m, u), c).0
    ensures Apart(Apply(m, c).0, u, theirs)
  {
    OwnToken(m, c.op.token, NO_LOCK, u, theirs);
  }

  lemma RefreshSteps(m: Table, c: Call)
    requires c.op.Refresh?
    ensures var live, token := Live(m, c.now), c.op.token;
      if token !in live then Apply(m, c) == (live, Found(None))
      else
        var l := live[token].(timeout := c.op.timeout, expires := Expiry(c.op.timeout, c.later));
        Apply(m, c) == (live[token := l], Found(Some(l)))
  {
  }

  lemma OwnRefresh(m: Table, c: Call, u: string, theirs: set<string>)
    requires c.op.Refresh? && c.op.token !in theirs && Apart(m, u, theirs)
    ensures Apply(m, c).1 == Apply(Strike(m, u), c).1
    ensures Strike(Apply(m, c).0, u) == Apply(Strike(m, u), c).0
    ensures Apart(Apply(m, c).0, u, theirs)
  {
    var live, token := Live(m, c.now), c.op.token;
    StrikeLive(m, u, c.now);
    LiveApart(m, c.now, u, theirs);
    var l := if token in live then live[token] else NO_LOCK;
    OwnToken(live, token, l.(timeout := c.op.timeout, expires := Expiry(c.op.timeout, c.later)), u, theirs);
    RefreshSteps(m, c);
    RefreshSteps(Strike(m, u), c);
  }

  /** An own call answers as if the other users' file locks were not there, and does the same to the rest. */
  lemma OwnStep(m: Table, c: Call, u: string, theirs: set<string>)
    requires PlainUser(u) && OwnCall(c.op, u, theirs) && Apart(m, u, theirs) && |Live(m, c.now)| < MAX_LOCKS
    ensures Apply(m, c).1 == Apply(Strike(m, u), c).1
    ensures Strike(Apply(m, c).0, u) == Apply(Strike(m, u), c).0
    ensures Apart(Apply(m, c).0, u, theirs)
  {
    if c.op.Acquire? {
      OwnAcquire(m, c, u, theirs);
    } else if c.op.RemoveTree? {
      assert Strike(WithoutTree(m, c.op.key), u) == WithoutTree(Strike(m, u), c.op.key);
    } else if c.op.CheckWrite? || c.op.IndirectTokens? || c.op.LocksOn? {
      OwnAsks(m, c, u, theirs);
      StrikeLive(m, u, c.now);
      LiveApart(m, c.now, u, theirs);
    } else if c.op.Refresh? {
      OwnRefresh(m, c, u, theirs);
    } else if c.op.Get? {
      OwnGet(m, c, u, theirs);
    } else {
      OwnRelease(m, c, u, theirs);
    }
  }

  lemma GrantIsOwn(live: Table, n: Lock, u: string, theirs: set<string>)
    requires PlainUser(u) && OwnView(n.key, n.infiniteDepth, u) && n.token !in theirs && Apart(live, u, theirs)
    ensures Strike(live[n.token := n], u) == Strike(live, u)[n.token := n] && Apart(live[n.token := n], u, theirs)
  {
    if OthersFile(n, u) {
      OthersOutOfView(n.key, n.infiniteDepth, n.key, u);
    }
  }

  lemma TheirLock(live: Table, token: string, r: Lock, u: string, theirs: set<string>)
    requires Apart(live, u, theirs) && token in theirs && OthersFile(r, u)
    ensures Strike(live[token := r], u) == Strike(live, u) && Apart(live[token := r], u, theirs)
  {
  }

  /** On a purged table: what such a call leaves of the rest. */
  lemma TheirCallOnLive(live: Table, op: Op, later: int, after: Table, u: string, theirs: set<string>)
    requires Apart(live, u, theirs) && TheirCall(op, u, theirs)
    requires if op.Acquire? && after != live then after == live[op.token := NewLock(op, later)]
             else if op.Refresh? && op.token in live then
               after == live[op.token := live[op.token].(timeout := op.timeout, expires := Expiry(op.timeout, later))]
             else after == live
    ensures Strike(after, u) == Strike(live, u) && Apart(after, u, theirs)
  {
    if op.Acquire? && after != live {
      TheirLock(live, op.token, NewLock(op, later), u, theirs);
    } else if op.Refresh? && op.token in live {
      TheirLock(live, op.token, after[op.token], u, theirs);
    }
  }

  lemma TheirRemoval(m: Table, op: Op, after: Table, u: string, theirs: set<string>)
    requires PlainUser(u) && Apart(m, u, theirs) && TheirCall(op, u, theirs)
    requires if op.RemoveTree? then after == WithoutTree(m, op.key) else op.Release? && after == m - {op.token}
    ensures Strike(after, u) == Strike(m, u) && Apart(after, u, theirs)
  {
    if op.RemoveTree? {
      TheirTree(m, op.key, u, theirs);
    }
  }

  /** A call of the others changes nothing but locks on their files, and what has expired. */
  lemma TheirStep(m: Table, c: Call, u: string, theirs: set<string>)
    requires PlainUser(u) && TheirCall(c.op, u, theirs) && Apart(m, u, theirs) && c.now <= c.later
    ensures Live(Strike(Apply(m, c).0, u), c.later) == Live(Strike(m, u), c.later)
    ensures Apart(Apply(m, c).0, u, theirs)
  {
    var live, after := Live(m, c.now), Apply(m, c).0;
    if c.op.RemoveTree? || c.op.Release? {
      TheirRemoval(m, c.op, after, u, theirs);
    } else {
      StrikeLive(m, u, c.now);
      LiveApart(m, c.now, u, theirs);
      LiveLater(Strike(m, u), c.now, c.later);
      TheirCallOnLive(live, c.op, c.later, after, u, theirs);
    }
  }

  /** A tree below another user's file holds none of the rest. */
  lemma TheirTree(m: Table, key: string, u: string, theirs: set<string>)
    requires PlainUser(u) && OthersKey(key, u) && Apart(m, u, theirs)
    ensures Strike(WithoutTree(m, key), u) == Strike(m, u)
  {
    forall t | t in m && t !in theirs ensures !InTree(m[t], key) {
      if OwnKey(m[t].key, u) {
        OwnAndOthersApart(m[t].key, key, u);
      } else {
        var q: string, v: string :| PlainPath(q) && PlainUser(v) && v != u && key == UserKey(q, v);
        if InTree(m[t], key) {
          TreeHasNul(m[t].key, key, q, v);
        }
      }
    }
  }

  ghost function OwnCalls(calls: seq<Call>, user: string, theirs: set<string>): seq<Call> {
    if calls == [] then []
    else (if OwnCall(calls[0].op, user, theirs) then [calls[0]] else []) + OwnCalls(calls[1..], user, theirs)
  }

  /** The answers to the own calls in a run of all. */
  ghost function OwnReplies(m: Table, calls: seq<Call>, user: string, theirs: set<string>): seq<Reply>
    decreases |calls|
  {
    if calls == [] then []
    else
      var r := Apply(m, calls[0]);
      (if OwnCall(calls[0].op, user, theirs) then [r.1] else []) + OwnReplies(r.0, calls[1..], user, theirs)
  }

  /** At every call there is room for another lock. */
  predicate Roomy(m: Table, calls: seq<Call>)
    decreases |calls|
  {
    calls != [] ==> |Live(m, calls[0].now)| < MAX_LOCKS && Roomy(Apply(m, calls[0]).0, calls[1..])
  }

  lemma EarlierStart(calls: seq<Call>, from: int, later: int)
    requires InClockOrder(calls, later) && from <= later
    ensures InClockOrder(calls, from)
  {
  }

  lemma {:induction false} OwnInOrder(calls: seq<Call>, from: int, user: string, theirs: set<string>)
    requires InClockOrder(calls, from)
    ensures InClockOrder(OwnCalls(calls, user, theirs), from)
    decreases |calls|
  {
    if calls != [] {
      var rest := OwnCalls(calls[1..], user, theirs);
      OwnInOrder(calls[1..], calls[0].later, user, theirs);
      if OwnCall(calls[0].op, user, theirs) {
        assert ([calls[0]] + rest)[1..] == rest;
      } else {
        EarlierStart(rest, from, calls[0].later);
        assert [] + rest == rest;
      }
    }
  }

  lemma SameWhileLive(m: Table, n: Table, calls: seq<Call>, now: int)
    requires Live(m, now) == Live(n, now) && InClockOrder(calls, now)
    ensures Replies(m, calls) == Replies(n, calls)
  {
    ExpiredLocksAreInvisible(m, now, calls);
    ExpiredLocksAreInvisible(n, now, calls);
  }

  /** Users do not see each other's file locks: while the table is not full, in any run together with calls
      of others about their files, the calls about a user's own files and those about shared paths (by
      whomever, but not about what is below a path) get the answers of the run without those calls of the
      others and without those locks. */
  lemma {:induction false} OthersAreInvisible(m: Table, calls: seq<Call>, from: int, u: string, theirs: set<string>)
    requires PlainUser(u) && Apart(m, u, theirs) && InClockOrder(calls, from) && Roomy(m, calls)
    requires forall i :: 0 <= i < |calls| ==> OwnCall(calls[i].op, u, theirs) || TheirCall(calls[i].op, u, theirs)
    ensures OwnReplies(m, calls, u, theirs) == Replies(Strike(m, u), OwnCalls(calls, u, theirs))
    decreases |calls|
  {
    if calls != [] {
      var c, rest := calls[0], calls[1..];
      var after, own := Apply(m, c).0, OwnCalls(rest, u, theirs);
      assert forall i :: 0 <= i < |rest| ==> rest[i] == calls[i + 1];
      if OwnCall(c.op, u, theirs) {
        OwnStep(m, c, u, theirs);
        OthersAreInvisible(after, rest, c.later, u, theirs);
        FirstReply(Strike(m, u), c, own);
      } else {
        TheirStep(m, c, u, theirs);
        OthersAreInvisible(after, rest, c.later, u, theirs);
        OwnInOrder(rest, c.later, u, theirs);
        SameWhileLive(Strike(after, u), Strike(m, u), own, c.later);
        assert [] + own == own;
      }
    }
  }

  lemma FirstReply(m: Table, c: Call, rest: seq<Call>)
    ensures Replies(m, [c] + rest) == [Apply(m, c).1] + Replies(Apply(m, c).0, rest)
  {
    assert ([c] + rest)[1..] == rest;
  }

  /** A depth-infinity lock on a folder still covers every user's file in it. */
  lemma FolderLockCoversAllUsers(l: Lock, p: string, u: string)
    requires l.infiniteDepth && (l.key == p || IsChild(l.key, p))
    requires PlainPath(p) && p != []
    ensures l.Covers(UserKey(p, u))
  {
    if l.key != "/" {
      assert UserKey(p, u)[|p|] == '\0';
      assert p <= UserKey(p, u);
    }
  }
}
