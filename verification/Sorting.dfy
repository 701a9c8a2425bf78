/**
 Strings in order, and sorting with duplicates removed.
 */
module Sorting {
  import opened Sequences

  /** Character by character, as strings are compared. */
  predicate Less(a: string, b: string) {
    if b == "" then false
    else if a == "" then true
    else if a[0] != b[0] then a[0] < b[0]
    else Less(a[1..], b[1..])
  }

  lemma {:induction false} LessIsOrder(a: string, b: string, c: string)
    ensures !Less(a, a)
    ensures a == b || Less(a, b) || Less(b, a)
    ensures Less(a, b) && Less(b, c) ==> Less(a, c)
    decreases |a| + |b| + |c|
  {
    if a != "" {
      LessIsOrder(a[1..], if b != "" then b[1..] else "", if c != "" then c[1..] else "");
      assert a == [a[0]] + a[1..];
    }
    if b != "" {
      assert b == [b[0]] + b[1..];
    }
  }

  /** Increasing, so without duplicates. */
  predicate Sorted(s: seq<string>) {
    forall i, j :: 0 <= i < j < |s| ==> Less(s[i], s[j])
  }

  lemma NoElements(s: seq<string>)
    ensures Elements(s) == {} <==> s == []
  {
    if s != [] {
      assert s[0] in Elements(s);
    }
  }

  function Insert(s: seq<string>, x: string): seq<string> {
    if s == [] then [x]
    else if x == s[0] then s
    else if Less(x, s[0]) then [x] + s
    else [s[0]] + Insert(s[1..], x)
  }

  lemma {:induction false} InsertMember(s: seq<string>, x: string, y: string)
    ensures y in Insert(s, x) <==> y in s || y == x
  {
    if s != [] && x != s[0] && !Less(x, s[0]) {
      InsertMember(s[1..], x, y);
      assert s == [s[0]] + s[1..];
    }
  }

  lemma {:induction false} InsertSorted(s: seq<string>, x: string)
    requires Sorted(s)
    ensures Sorted(Insert(s, x))
  {
    if s != [] && x != s[0] {
      if Less(x, s[0]) {
        forall i | 0 <= i < |s| ensures Less(x, s[i]) {
          LessIsOrder(x, s[0], s[i]);
        }
      } else {
        var rest := Insert(s[1..], x);
        InsertSorted(s[1..], x);
        LessIsOrder(x, s[0], s[0]);
        forall i | 0 <= i < |rest| ensures Less(s[0], rest[i]) {
          InsertMember(s[1..], x, rest[i]);
        }
      }
    }
  }

  /** `sort`, then `dedup`. */
  function SortDedup(s: seq<string>): seq<string> {
    if s == [] then [] else Insert(SortDedup(s[..|s| - 1]), s[|s| - 1])
  }

  lemma {:induction false} SortDedupKeeps(s: seq<string>)
    ensures Sorted(SortDedup(s)) && Elements(SortDedup(s)) == Elements(s)
    ensures SortDedup(s) == [] <==> s == []
  {
    if s != [] {
      var front, x := s[..|s| - 1], s[|s| - 1];
      FrontAndLast(s);
      SortDedupKeeps(front);
      InsertSorted(SortDedup(front), x);
      forall y ensures y in SortDedup(s) <==> y in s {
        InsertMember(SortDedup(front), x, y);
        assert y in SortDedup(front) <==> y in Elements(SortDedup(front));
        assert y in front <==> y in Elements(front);
      }
    }
  }

  /** A set is listed in order in one way only. */
  lemma {:induction false} SortedIsUnique(a: seq<string>, b: seq<string>)
    requires Sorted(a) && Sorted(b) && Elements(a) == Elements(b)
    ensures a == b
  {
    NoElements(a);
    NoElements(b);
    forall x ensures x in a <==> x in b {
      assert x in a <==> x in Elements(a);
      assert x in b <==> x in Elements(b);
    }
    if a != [] && b != [] {
      SmallestFirst(a, b[0]);
      SmallestFirst(b, a[0]);
      LessIsOrder(a[0], b[0], a[0]);
      RestElements(a);
      RestElements(b);
      SortedIsUnique(a[1..], b[1..]);
      assert a == [a[0]] + a[1..] && b == [b[0]] + b[1..];
    }
  }

  lemma SmallestFirst(s: seq<string>, x: string)
    requires Sorted(s) && x in s
    ensures x == s[0] || Less(s[0], x)
  {
  }

  lemma RestElements(s: seq<string>)
    requires s != [] && Sorted(s)
    ensures Elements(s[1..]) == Elements(s) - {s[0]}
  {
    LessIsOrder(s[0], s[0], s[0]);
    assert s == [s[0]] + s[1..];
    forall i | 1 <= i < |s| ensures s[i] != s[0] {
    }
  }
}
