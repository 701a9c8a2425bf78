/**
 What a granted lock does, told from the calls alone: whom it stops and whom it lets through, what it is
 listed as, and until when.
 */
module LockHistory {
  import opened Sequences
  import opened Text
  import opened Locks

  // --- a grant and its time -------------------------------------------------------------

  /** The region a lock on `key` protects. */
  predicate Within(key: string, deep: bool, k: string) {
    k == key || (deep && IsChild(key, k))
  }

  ghost predicate RegionsMeet(a: Op, b: Op)
    requires a.Acquire? && b.Acquire?
  {
    exists k: string :: Within(a.key, a.infiniteDepth, k) && Within(b.key, b.infiniteDepth, k)
  }

  /** What the lock says is what the call that it was granted to asked for. */
  predicate IsOf(l: Lock, op: Op)
    requires op.Acquire?
  {
    && l.token == op.token && l.key == op.key && l.rootHref == op.rootHref && l.scope == op.scope
    && l.infiniteDepth == op.infiniteDepth && l.ownerXml == op.ownerXml && l.principal == op.principal
  }

  /** The call takes the lock under `token` on `key` away, or gives its token to another. */
  predicate TakesAway(op: Op, token: string, key: string) {
    match op
    case Release(t) => t == token
    case RemoveTree(k) => key == k || IsChild(k, key)
    case Acquire(_, _, _, _, _, _, _, t) => t == token
    case _ => false
  }

  /** Until when a lock lives whose time is set by a call with a clock reading; none is for ever. */
  function Until(timeout: int, at: int): Option<int> {
    if timeout < 0 then None else Some(at + timeout)
  }

  predicate Before(now: int, until: Option<int>) {
    until.None? || now < until.value
  }

  /** Until when the lock lives after a call that it lived to see. */
  function Renewed(c: Call, token: string, until: Option<int>): Option<int> {
    if c.op.Refresh? && c.op.token == token then Until(c.op.timeout, c.later) else until
  }

  /** No call takes the lock away, and each comes in its time. */
  predicate Stays(calls: seq<Call>, token: string, key: string, until: Option<int>)
    decreases |calls|
  {
    calls == [] || (
      && Before(calls[0].now, until) && !TakesAway(calls[0].op, token, key)
      && Stays(calls[1..], token, key, Renewed(calls[0], token, until)))
  }

  /** The lock is held, as it was asked for. */
  predicate Held(m: Table, op: Op, until: Option<int>)
    requires op.Acquire?
  {
    op.token in m && IsOf(m[op.token], op) && m[op.token].expires == until
  }

  lemma GrantedIsHeld(m: Table, grant: Call)
    requires grant.op.Acquire? && Apply(m, grant).1.Granted?
    ensures Held(Apply(m, grant).0, grant.op, Until(grant.op.timeout, grant.later))
    ensures IsOf(Apply(m, grant).1.lock, grant.op) && Apply(m, grant).1.lock.timeout == grant.op.timeout
    ensures Apply(m, grant).1.lock.expires == Until(grant.op.timeout, grant.later)
  {
  }

  /** A refresh finds the lock while it lives, and sets its seconds and its time anew and nothing else. */
  lemma RefreshSays(m: Table, c: Call)
    requires c.op.Refresh?
    ensures var found := Apply(m, c).1.found;
      && (found.Some? <==> c.op.token in m && Before(c.now, m[c.op.token].expires))
      && (found.Some? ==>
            found.value == m[c.op.token].(timeout := c.op.timeout, expires := Until(c.op.timeout, c.later)))
  {
  }

  lemma HeldStep(m: Table, op: Op, until: Option<int>, c: Call)
    requires op.Acquire? && Held(m, op, until) && Before(c.now, until) && !TakesAway(c.op, op.token, op.key)
    ensures Held(Apply(m, c).0, op, Renewed(c, op.token, until))
  {
    assert op.token in Live(m, c.now);
  }

  lemma {:induction false} StaysHeld(m: Table, op: Op, until: Option<int>, calls: seq<Call>, c: Call)
    requires op.Acquire? && Held(m, op, until) && Stays(calls + [c], op.token, op.key, until)
    ensures exists last :: Held(Run(m, calls), op, last) && Before(c.now, last) && !TakesAway(c.op, op.token, op.key)
    decreases |calls|
  {
    if calls == [] {
      assert (calls + [c])[0] == c;
      assert Held(Run(m, calls), op, until);
    } else {
      assert (calls + [c])[0] == calls[0] && (calls + [c])[1..] == calls[1..] + [c];
      HeldStep(m, op, until, calls[0]);
      StaysHeld(Apply(m, calls[0]).0, op, Renewed(calls[0], op.token, until), calls[1..], c);
    }
  }

  // --- what a held lock does ------------------------------------------------------------

  /** A write in its region goes through only for the grantee with the token; any other is told the root
      it was asked for. */
  lemma HeldGuards(m: Table, op: Op, until: Option<int>, c: Call)
    requires op.Acquire? && Held(m, op, until) && Before(c.now, until) && c.op.CheckWrite?
    requires Within(op.key, op.infiniteDepth, c.op.key)
    requires !(c.op.principal == op.principal && op.token in c.op.tokens)
    ensures Apply(m, c).1.Conflict? && op.rootHref in Apply(m, c).1.hrefs
  {
    var live := Live(m, c.now);
    assert op.token in live && live[op.token] == m[op.token];
    assert WriteTest(c.op.key, c.op.infinite, c.op.tokens, c.op.principal)(live[op.token]);
    assert live[op.token].rootHref in WriteConflicts(live, c.op.key, c.op.infinite, c.op.tokens, c.op.principal);
  }

  /** It is listed on its key, found by its token, and counted among the grantee's in its region. */
  lemma HeldIsListed(m: Table, op: Op, until: Option<int>, c: Call)
    requires op.Acquire? && Held(m, op, until) && Before(c.now, until)
    requires forall t :: t in m ==> m[t].token == t
    ensures c.op.Get? && c.op.token == op.token ==>
      Apply(m, c).1.Found? && Apply(m, c).1.found.Some? && IsOf(Apply(m, c).1.found.value, op)
    ensures c.op.LocksOn? ==> ((exists l :: l in Apply(m, c).1.locks && IsOf(l, op)) <==> c.op.key == op.key)
    ensures c.op.IndirectTokens? ==>
      (op.token in Apply(m, c).1.tokens <==>
        c.op.principal == op.principal && Within(op.key, op.infiniteDepth, c.op.key))
  {
    var live := Live(m, c.now);
    assert op.token in live && live[op.token] == m[op.token];
    if c.op.LocksOn? && c.op.key == op.key {
      assert m[op.token] in Apply(m, c).1.locks;
    }
    if c.op.IndirectTokens? && op.token in Apply(m, c).1.tokens {
      var t :| t in live && live[t].principal == c.op.principal && live[t].Covers(c.op.key)
               && live[t].token == op.token;
      assert t == op.token;
    }
  }

  /** No lock is granted whose region meets that of an exclusive one, and the refusal names its root. */
  lemma HeldExcludes(m: Table, op: Op, until: Option<int>, c: Call)
    requires op.Acquire? && op.scope == Exclusive && Held(m, op, until) && Before(c.now, until)
    requires c.op.Acquire? && RegionsMeet(op, c.op)
    ensures Apply(m, c).1 == TooMany || (Apply(m, c).1.Conflict? && op.rootHref in Apply(m, c).1.hrefs)
  {
    var live, n := Live(m, c.now), NewLock(c.op, c.later);
    var l := m[op.token];
    assert op.token in live && live[op.token] == l;
    var k: string :| Within(op.key, op.infiniteDepth, k) && Within(c.op.key, c.op.infiniteDepth, k);
    assert l.Covers(k) && n.Covers(k);
    OverlapIffNested(l, n);
    assert AcquireTest(c.op.key, c.op.scope, c.op.infiniteDepth)(l);
    assert l.rootHref in AcquireConflicts(live, c.op.key, c.op.scope, c.op.infiniteDepth);
  }

  /** A key below one in a deep region is in the region. */
  lemma BelowIsWithin(op: Op, key: string, below: string)
    requires op.Acquire? && op.infiniteDepth && op.key != "" && Within(op.key, true, key)
    ensures IsChild(key, below) ==> Within(op.key, true, below)
  {
    if IsChild(key, below) && op.key != key && op.key != "/" {
      assert key[..|op.key|] == op.key && below[..|key|] == key;
      assert below[..|op.key|] == op.key && below[|op.key|] == key[|op.key|];
    }
  }

  lemma BothCover(l: Lock, n: Lock, k: string)
    ensures l.Covers(k) && n.Covers(k) ==> Overlap(l, n)
  {
  }

  /** The grantee of an exclusive lock writes in its region with the token. A depth-infinity write on a lock
      of depth zero can find other locks below; nothing else is in the way. */
  lemma HeldLetsThrough(m: Table, op: Op, until: Option<int>, c: Call)
    requires op.Acquire? && op.scope == Exclusive && Held(m, op, until) && Before(c.now, until) && Consistent(m)
    requires c.op.CheckWrite? && op.key != "" && Within(op.key, op.infiniteDepth, c.op.key)
    requires c.op.principal == op.principal && op.token in c.op.tokens
    ensures Apply(m, c).1 == Allowed <==> op.infiniteDepth || !c.op.infinite || NoneBelow(m, op.token, c)
  {
    WriteAllowedIff(m, c);
    var l := m[op.token];
    forall t | t in m && t != op.token
      ensures !m[t].Covers(c.op.key) && (op.infiniteDepth ==> !IsChild(c.op.key, m[t].key))
    {
      BothCover(l, m[t], c.op.key);
      BothCover(l, m[t], m[t].key);
      if op.infiniteDepth {
        BelowIsWithin(op, c.op.key, m[t].key);
      }
    }
  }

  /** No other lock lives below the key of a write. */
  predicate NoneBelow(m: Table, token: string, c: Call)
    requires c.op.CheckWrite?
  {
    forall t :: t in m && t != token && !m[t].Expired(c.now) ==> !IsChild(c.op.key, m[t].key)
  }

  // --- from the grant on ----------------------------------------------------------------

  /** A lock granted after some calls, and the table before the last of more calls in which it stays. */
  ghost predicate Case(before: seq<Call>, grant: Call, calls: seq<Call>, c: Call) {
    && grant.op.Acquire? && Apply(Run(map[], before), grant).1.Granted?
    && Stays(calls + [c], grant.op.token, grant.op.key, Until(grant.op.timeout, grant.later))
  }

  ghost function TableAt(before: seq<Call>, grant: Call, calls: seq<Call>): Table {
    Run(Apply(Run(map[], before), grant).0, calls)
  }

  lemma HeldAt(before: seq<Call>, grant: Call, calls: seq<Call>, c: Call) returns (until: Option<int>)
    requires Case(before, grant, calls, c)
    ensures var m := TableAt(before, grant, calls);
      Held(m, grant.op, until) && Before(c.now, until) && Consistent(m)
  {
    var m0 := Run(map[], before);
    GrantedIsHeld(m0, grant);
    RunConsistent(map[], before);
    ApplyConsistent(m0, grant);
    RunConsistent(Apply(m0, grant).0, calls);
    StaysHeld(Apply(m0, grant).0, grant.op, Until(grant.op.timeout, grant.later), calls, c);
    until :| Held(TableAt(before, grant, calls), grant.op, until) && Before(c.now, until);
  }

  /** While a lock stays, a write in its region without its token or by another principal is refused, and
      the root the lock was asked for is named. */
  lemma GrantGuards(before: seq<Call>, grant: Call, calls: seq<Call>, c: Call)
    requires Case(before, grant, calls, c) && c.op.CheckWrite?
    requires Within(grant.op.key, grant.op.infiniteDepth, c.op.key)
    ensures var r := Apply(TableAt(before, grant, calls), c).1;
      c.op.principal != grant.op.principal || grant.op.token !in c.op.tokens ==>
        r.Conflict? && grant.op.rootHref in r.hrefs
  {
    var until := HeldAt(before, grant, calls, c);
    if c.op.principal != grant.op.principal || grant.op.token !in c.op.tokens {
      HeldGuards(TableAt(before, grant, calls), grant.op, until, c);
    }
  }

  /** While an exclusive lock stays, its grantee's own writes in its region with the token go through. (At
      depth infinity on a lock of depth zero, exactly when no other lock lives below.) */
  lemma GrantLetsThrough(before: seq<Call>, grant: Call, calls: seq<Call>, c: Call)
    requires Case(before, grant, calls, c) && grant.op.scope == Exclusive && grant.op.key != ""
    requires c.op.CheckWrite? && Within(grant.op.key, grant.op.infiniteDepth, c.op.key)
    requires c.op.principal == grant.op.principal && grant.op.token in c.op.tokens
    ensures var m := TableAt(before, grant, calls);
      Apply(m, c).1 == Allowed <==>
        grant.op.infiniteDepth || !c.op.infinite || NoneBelow(m, grant.op.token, c)
  {
    var until := HeldAt(before, grant, calls, c);
    HeldLetsThrough(TableAt(before, grant, calls), grant.op, until, c);
  }

  /** While an exclusive lock stays, nothing is granted whose region meets its own, and its root is named. */
  lemma GrantExcludes(before: seq<Call>, grant: Call, calls: seq<Call>, c: Call)
    requires Case(before, grant, calls, c) && grant.op.scope == Exclusive
    requires c.op.Acquire? && RegionsMeet(grant.op, c.op)
    ensures var r := Apply(TableAt(before, grant, calls), c).1;
      r == TooMany || (r.Conflict? && grant.op.rootHref in r.hrefs)
  {
    var until := HeldAt(before, grant, calls, c);
    HeldExcludes(TableAt(before, grant, calls), grant.op, until, c);
  }

  /** While a lock stays it is found by its token with all it was asked for, listed on its key and nowhere
      else, and among the tokens of its grantee, and of nobody else, in its region and nowhere else. */
  lemma GrantIsListed(before: seq<Call>, grant: Call, calls: seq<Call>, c: Call)
    requires Case(before, grant, calls, c)
    ensures var r := Apply(TableAt(before, grant, calls), c).1;
      && (c.op == Get(grant.op.token) ==> r.Found? && r.found.Some? && IsOf(r.found.value, grant.op))
      && (c.op.LocksOn? ==> ((exists l :: l in r.locks && IsOf(l, grant.op)) <==> c.op.key == grant.op.key))
      && (c.op.IndirectTokens? ==>
            (grant.op.token in r.tokens <==>
              c.op.principal == grant.op.principal && Within(grant.op.key, grant.op.infiniteDepth, c.op.key)))
  {
    var until := HeldAt(before, grant, calls, c);
    HeldIsListed(TableAt(before, grant, calls), grant.op, until, c);
  }

  // --- until when -----------------------------------------------------------------------

  /** No call is about the lock: none takes it away and none refreshes it. */
  predicate LeftAlone(calls: seq<Call>, token: string, key: string) {
    forall i :: 0 <= i < |calls| ==>
      !TakesAway(calls[i].op, token, key) && !(calls[i].op.Refresh? && calls[i].op.token == token)
  }

  /** The lock is there until its time, or gone after it. */
  predicate ThereOrOver(m: Table, token: string, key: string, until: Option<int>, at: int) {
    if token in m then m[token].key == key && m[token].expires == until else !Before(at, until)
  }

  lemma {:induction false} LeftAloneStays(m: Table, token: string, key: string, until: Option<int>,
                                          calls: seq<Call>, c: Call, at: int)
    requires ThereOrOver(m, token, key, until, at) && LeftAlone(calls, token, key) && InClockOrder(calls + [c], at)
    ensures ThereOrOver(Run(m, calls), token, key, until, c.now)
    decreases |calls|
  {
    if calls == [] {
      assert (calls + [c])[0] == c;
    } else {
      assert (calls + [c])[0] == calls[0] && (calls + [c])[1..] == calls[1..] + [c];
      assert forall i :: 0 <= i < |calls| - 1 ==> calls[1..][i] == calls[i + 1];
      LeftAloneStays(Apply(m, calls[0]).0, token, key, until, calls[1..], c, calls[0].later);
    }
  }

  lemma FoundWhileThere(m: Table, token: string, key: string, until: Option<int>, c: Call)
    requires ThereOrOver(m, token, key, until, c.now) && c.op == Get(token)
    ensures Apply(m, c).1.found.Some? <==> Before(c.now, until)
  {
  }

  /** A lock left alone since its grant is found exactly until the seconds it was asked for are over; for
      ever when they are negative. */
  lemma GrantFoundIff(before: seq<Call>, grant: Call, calls: seq<Call>, c: Call)
    requires grant.op.Acquire? && Apply(Run(map[], before), grant).1.Granted? && c.op == Get(grant.op.token)
    requires LeftAlone(calls, grant.op.token, grant.op.key) && InClockOrder(calls + [c], grant.later)
    ensures Apply(TableAt(before, grant, calls), c).1.found.Some? <==>
      grant.op.timeout < 0 || c.now < grant.later + grant.op.timeout
  {
    var m, until := Apply(Run(map[], before), grant).0, Until(grant.op.timeout, grant.later);
    LeftAloneStays(m, grant.op.token, grant.op.key, until, calls, c, grant.later);
    FoundWhileThere(Run(m, calls), grant.op.token, grant.op.key, until, c);
  }

  /** So is a lock since a refresh that found it, by the seconds asked for then. */
  lemma RefreshFoundIff(m: Table, refresh: Call, calls: seq<Call>, c: Call)
    requires refresh.op.Refresh? && Apply(m, refresh).1.found.Some? && c.op == Get(refresh.op.token)
    requires LeftAlone(calls, refresh.op.token, Apply(m, refresh).1.found.value.key)
    requires InClockOrder(calls + [c], refresh.later)
    ensures Apply(Run(Apply(m, refresh).0, calls), c).1.found.Some? <==>
      refresh.op.timeout < 0 || c.now < refresh.later + refresh.op.timeout
  {
    var after, token := Apply(m, refresh).0, refresh.op.token;
    var key, until := after[token].key, Until(refresh.op.timeout, refresh.later);
    LeftAloneStays(after, token, key, until, calls, c, refresh.later);
    FoundWhileThere(Run(after, calls), token, key, until, c);
  }
}
