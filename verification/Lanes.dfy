/**
 The queue page's placement: volumes in the lanes of a machine, layers in the rows of the speed
 section, and machines down the page.
 */
module Lanes {
  import opened Sequences
  import opened Text
  import Reconcile

  datatype Job = Job(series: string, volume: string, generation: string)

  const SEPARATOR: string := "\U{0001}"

  function JobKey(j: Job): string {
    j.series + SEPARATOR + j.volume + SEPARATOR + j.generation
  }

  /** `slots` is 0 when the payload gives none. */
  function LaneCount(slots: int): nat {
    if slots >= 1 then slots else 1
  }

  /** The first lane that shows `key`, or the number of lanes shown. `shown` has a job key
      for each lane in use and `None` for an idle one. */
  function ShownAt(shown: seq<Option<string>>, key: string): (i: nat)
    ensures i <= |shown|
    ensures i < |shown| ==> shown[i] == Some(key)
    ensures forall j :: 0 <= j < i ==> shown[j] != Some(key)
  {
    if shown == [] || shown[0] == Some(key) then 0 else 1 + ShownAt(shown[1..], key)
  }

  /** The first free lane, or the number of lanes. */
  function FreeLane<J>(lanes: seq<Option<J>>): (i: nat)
    ensures i <= |lanes|
    ensures i < |lanes| ==> lanes[i].None?
    ensures forall j :: 0 <= j < i ==> lanes[j].Some?
  {
    if lanes == [] || lanes[0].None? then 0 else 1 + FreeLane(lanes[1..])
  }

  /** The jobs in the lanes. */
  function Placed<J(==)>(lanes: seq<Option<J>>): multiset<J> {
    if lanes == [] then multiset{}
    else (if lanes[0].Some? then multiset{lanes[0].value} else multiset{}) + Placed(lanes[1..])
  }

  lemma {:induction false} PlaceOne<J>(lanes: seq<Option<J>>, at: nat, j: J)
    requires at < |lanes| && lanes[at].None?
    ensures Placed(lanes[at := Some(j)]) == Placed(lanes) + multiset{j}
  {
    var after := lanes[at := Some(j)];
    if at == 0 {
      assert after[1..] == lanes[1..];
    } else {
      assert after[1..] == lanes[1..][at - 1 := Some(j)];
      PlaceOne(lanes[1..], at - 1, j);
    }
  }

  lemma {:induction false} NothingPlaced<J>(lanes: seq<Option<J>>)
    requires forall i :: 0 <= i < |lanes| ==> lanes[i].None?
    ensures Placed(lanes) == multiset{}
  {
    if lanes != [] {
      NothingPlaced(lanes[1..]);
    }
  }

  lemma Shift<J>(a: multiset<J>, b: multiset<J>, c: multiset<J>)
    ensures (a + c) + b == (a + b) + c == a + (b + c)
  {
  }

  /** `sub` keeps the order of `all`: it is `all` at increasing positions. */
  ghost predicate OrderedBy<T>(sub: seq<T>, all: seq<T>, at: seq<nat>) {
    && |at| == |sub|
    && (forall i :: 0 <= i < |at| ==> at[i] < |all| && all[at[i]] == sub[i])
    && (forall i, j :: 0 <= i < j < |at| ==> at[i] < at[j])
  }

  lemma OrderedByMore<T>(sub: seq<T>, all: seq<T>, at: seq<nat>, x: T)
    requires OrderedBy(sub, all, at)
    ensures OrderedBy(sub, all + [x], at)
    ensures OrderedBy(sub + [x], all + [x], at + [|all|])
  {
  }

  /** Each filled lane holds a job whose home it is. */
  ghost predicate HoldsOwn<J>(lanes: seq<Option<J>>, home: J -> nat, jobs: seq<J>) {
    forall k :: 0 <= k < |lanes| && lanes[k].Some? ==> lanes[k].value in jobs && home(lanes[k].value) == k
  }

  /** Every job with a home lane finds it filled. */
  ghost predicate HomesTaken<J>(lanes: seq<Option<J>>, home: J -> nat, jobs: seq<J>) {
    forall m :: m in jobs && home(m) < |lanes| ==> lanes[home(m)].Some?
  }

  /** Every job is in a lane or waits in `rest`. */
  ghost predicate Conserved<J>(lanes: seq<Option<J>>, rest: seq<J>, jobs: seq<J>) {
    Placed(lanes) + multiset(rest) == multiset(jobs)
  }

  lemma ConservedInto<J>(lanes: seq<Option<J>>, rest: seq<J>, jobs: seq<J>, job: J, lane: nat)
    requires Conserved(lanes, rest, jobs)
    requires lane < |lanes| && lanes[lane].None?
    ensures Conserved(lanes[lane := Some(job)], rest, jobs + [job])
  {
    PlaceOne(lanes, lane, job);
    Shift(Placed(lanes), multiset(rest), multiset{job});
  }

  lemma ConservedAside<J>(lanes: seq<Option<J>>, rest: seq<J>, jobs: seq<J>, job: J)
    requires Conserved(lanes, rest, jobs)
    ensures Conserved(lanes, rest + [job], jobs + [job])
  {
    Shift(Placed(lanes), multiset(rest), multiset{job});
  }

  /** How far the first pass has come over `jobs`. */
  ghost predicate Keeping<J>(lanes: seq<Option<J>>, rest: seq<J>, jobs: seq<J>, home: J -> nat, at: seq<nat>) {
    && Conserved(lanes, rest, jobs) && OrderedBy(rest, jobs, at)
    && HoldsOwn(lanes, home, jobs) && HomesTaken(lanes, home, jobs)
  }

  lemma KeepOne<J>(lanes: seq<Option<J>>, rest: seq<J>, jobs: seq<J>, home: J -> nat, at: seq<nat>, job: J)
    requires Keeping(lanes, rest, jobs, home, at)
    ensures var lane := home(job);
      if lane < |lanes| && lanes[lane].None? then Keeping(lanes[lane := Some(job)], rest, jobs + [job], home, at)
      else Keeping(lanes, rest + [job], jobs + [job], home, at + [|jobs|])
  {
    OrderedByMore(rest, jobs, at, job);
    var lane := home(job);
    if lane < |lanes| && lanes[lane].None? {
      ConservedInto(lanes, rest, jobs, job, lane);
    } else {
      ConservedAside(lanes, rest, jobs, job);
    }
  }

  /** A job whose home lane is free takes it; the others wait in `rest`, in order. */
  function Keep<J>(lanes: seq<Option<J>>, rest: seq<J>, jobs: seq<J>, home: J -> nat): (seq<Option<J>>, seq<J>)
    decreases |jobs|
  {
    if jobs == [] then (lanes, rest)
    else
      var lane := home(jobs[0]);
      if lane < |lanes| && lanes[lane].None? then Keep(lanes[lane := Some(jobs[0])], rest, jobs[1..], home)
      else Keep(lanes, rest + [jobs[0]], jobs[1..], home)
  }

  lemma {:induction false} KeepKeeps<J>(lanes: seq<Option<J>>, rest: seq<J>, seen: seq<J>, home: J -> nat, at: seq<nat>,
                                        jobs: seq<J>) returns (last: seq<nat>)
    requires Keeping(lanes, rest, seen, home, at)
    ensures var r := Keep(lanes, rest, jobs, home);
      |r.0| == |lanes| && Keeping(r.0, r.1, seen + jobs, home, last)
    decreases |jobs|
  {
    if jobs == [] {
      last := at;
      assert seen + jobs == seen;
    } else {
      KeepOne(lanes, rest, seen, home, at, jobs[0]);
      var lane := home(jobs[0]);
      if lane < |lanes| && lanes[lane].None? {
        last := KeepKeeps(lanes[lane := Some(jobs[0])], rest, seen + [jobs[0]], home, at, jobs[1..]);
      } else {
        last := KeepKeeps(lanes, rest + [jobs[0]], seen + [jobs[0]], home, at + [|seen|], jobs[1..]);
      }
      MoveHead(seen, jobs);
    }
  }

  function NoJobs<J>(count: nat): seq<Option<J>> {
    seq(count, i requires 0 <= i < count => None)
  }

  lemma KeepingNothing<J>(count: nat, home: J -> nat)
    ensures Keeping(NoJobs(count), [], [], home, [])
  {
    NothingPlaced<J>(NoJobs(count));
  }

  method KeepShown<J(==)>(jobs: seq<J>, home: J -> nat, count: nat) returns (lanes: seq<Option<J>>, rest: seq<J>)
    ensures (lanes, rest) == Keep(NoJobs(count), [], jobs, home)
  {
    lanes, rest := NoJobs(count), [];
    var i := 0;
    WholeTail(jobs);
    while i < |jobs|
      invariant 0 <= i <= |jobs| && |lanes| == count
      invariant Keep(lanes, rest, jobs[i..], home) == Keep(NoJobs(count), [], jobs, home)
    {
      NextTail(jobs, i);
      var lane := home(jobs[i]);
      if lane < count && lanes[lane].None? {
        lanes := lanes[lane := Some(jobs[i])];
      } else {
        rest := rest + [jobs[i]];
      }
      i := i + 1;
    }
  }

  /** What is in the lanes and extra is what was in the lanes and `rest`. */
  ghost predicate Filled<J>(start: seq<Option<J>>, rest: seq<J>, lanes: seq<Option<J>>, extra: seq<J>) {
    && |lanes| == |start|
    && Placed(lanes) + multiset(extra) == Placed(start) + multiset(rest)
    && forall k :: 0 <= k < |start| && start[k].Some? ==> lanes[k] == start[k]
  }

  lemma FilledMore<J>(start: seq<Option<J>>, rest: seq<J>, lanes: seq<Option<J>>, extra: seq<J>, job: J, free: nat)
    requires Filled(start, rest, lanes, extra)
    ensures Filled(start, rest + [job], lanes, extra + [job])
    ensures free < |lanes| && lanes[free].None? ==> Filled(start, rest + [job], lanes[free := Some(job)], extra)
  {
    Shift(Placed(lanes), multiset(extra), multiset{job});
    Shift(Placed(start), multiset(rest), multiset{job});
    if free < |lanes| && lanes[free].None? {
      PlaceOne(lanes, free, job);
    }
  }

  predicate AllTaken<J>(lanes: seq<Option<J>>) {
    FreeLane(lanes) == |lanes|
  }

  /** Half-way through: jobs are extra only from some point on, and only once every lane is taken. */
  ghost predicate Filling<J>(start: seq<Option<J>>, seen: seq<J>, lanes: seq<Option<J>>, extra: seq<J>, from: nat) {
    Filled(start, seen, lanes, extra) && from <= |seen| && extra == seen[from..] && (extra != [] ==> AllTaken(lanes))
  }

  lemma FillOne<J>(start: seq<Option<J>>, seen: seq<J>, lanes: seq<Option<J>>, extra: seq<J>, from: nat, job: J)
    requires Filling(start, seen, lanes, extra, from)
    ensures var free := FreeLane(lanes);
      if free < |lanes| then Filling(start, seen + [job], lanes[free := Some(job)], extra, |seen| + 1)
      else Filling(start, seen + [job], lanes, extra + [job], from)
  {
    var free := FreeLane(lanes);
    FilledMore(start, seen, lanes, extra, job, free);
    assert (seen + [job])[from..] == seen[from..] + [job];
  }

  /** The others take the first free lane each; what finds none is extra. */
  function Fill<J>(lanes: seq<Option<J>>, extra: seq<J>, rest: seq<J>): (seq<Option<J>>, seq<J>)
    decreases |rest|
  {
    if rest == [] then (lanes, extra)
    else
      var free := FreeLane(lanes);
      if free < |lanes| then Fill(lanes[free := Some(rest[0])], extra, rest[1..])
      else Fill(lanes, extra + [rest[0]], rest[1..])
  }

  lemma {:induction false} FillFills<J>(start: seq<Option<J>>, seen: seq<J>, lanes: seq<Option<J>>, extra: seq<J>,
                                        from: nat, rest: seq<J>) returns (last: nat)
    requires Filling(start, seen, lanes, extra, from)
    ensures Filling(start, seen + rest, Fill(lanes, extra, rest).0, Fill(lanes, extra, rest).1, last)
    decreases |rest|
  {
    if rest == [] {
      last := from;
      assert seen + rest == seen;
    } else {
      FillOne(start, seen, lanes, extra, from, rest[0]);
      var free := FreeLane(lanes);
      if free < |lanes| {
        last := FillFills(start, seen + [rest[0]], lanes[free := Some(rest[0])], extra, |seen| + 1, rest[1..]);
      } else {
        last := FillFills(start, seen + [rest[0]], lanes, extra + [rest[0]], from, rest[1..]);
      }
      MoveHead(seen, rest);
    }
  }

  lemma MoveHead<T>(a: seq<T>, b: seq<T>)
    requires b != []
    ensures (a + [b[0]]) + b[1..] == a + b
  {
  }

  method FillFree<J(==)>(start: seq<Option<J>>, rest: seq<J>) returns (lanes: seq<Option<J>>, extra: seq<J>)
    ensures (lanes, extra) == Fill(start, [], rest)
  {
    lanes, extra := start, [];
    var i := 0;
    WholeTail(rest);
    while i < |rest|
      invariant 0 <= i <= |rest|
      invariant Fill(lanes, extra, rest[i..]) == Fill(start, [], rest)
    {
      NextTail(rest, i);
      var free := FreeLane(lanes);
      if free < |lanes| {
        lanes := lanes[free := Some(rest[i])];
      } else {
        extra := extra + [rest[i]];
      }
      i := i + 1;
    }
  }

  /** The lane that shows the job now, or `count` when there is no such lane. */
  function Home(shown: seq<Option<string>>, count: nat, job: Job): nat {
    var at := ShownAt(shown, JobKey(job));
    if at < |shown| && at < count then at else count
  }

  /** Two jobs of one home lane have one key. */
  lemma SameHomeSameKey(shown: seq<Option<string>>, count: nat, a: Job, b: Job)
    requires Home(shown, count, a) == Home(shown, count, b) < count
    ensures JobKey(a) == JobKey(b)
  {
  }

  function Homes(shown: seq<Option<string>>, count: nat): Job -> nat {
    job => Home(shown, count, job)
  }

  /** A job already shown in a lane is placed in that lane, if no other job has its key. */
  ghost predicate ShownStay(jobs: seq<Job>, shown: seq<Option<string>>, lanes: seq<Option<Job>>) {
    forall i, k :: 0 <= i < |jobs| && 0 <= k < |lanes| && k == ShownAt(shown, JobKey(jobs[i])) < |shown|
                   && (forall m :: 0 <= m < |jobs| && m != i ==> JobKey(jobs[m]) != JobKey(jobs[i]))
      ==> lanes[k] == Some(jobs[i])
  }

  lemma KeptStay(jobs: seq<Job>, shown: seq<Option<string>>, kept: seq<Option<Job>>, lanes: seq<Option<Job>>)
    requires |kept| == |lanes|
    requires HoldsOwn(kept, Homes(shown, |kept|), jobs) && HomesTaken(kept, Homes(shown, |kept|), jobs)
    requires forall k :: 0 <= k < |kept| && kept[k].Some? ==> lanes[k] == kept[k]
    ensures ShownStay(jobs, shown, lanes)
  {
    var home := Homes(shown, |kept|);
    forall i, k | 0 <= i < |jobs| && 0 <= k < |lanes| && k == ShownAt(shown, JobKey(jobs[i])) < |shown|
                  && (forall m :: 0 <= m < |jobs| && m != i ==> JobKey(jobs[m]) != JobKey(jobs[i]))
      ensures lanes[k] == Some(jobs[i])
    {
      assert home(jobs[i]) == k && jobs[i] in jobs;
      var j := kept[k].value;
      assert j in jobs && home(j) == k;
      SameHomeSameKey(shown, |kept|, j, jobs[i]);
    }
  }

  lemma OrderedTail<T>(sub: seq<T>, all: seq<T>, at: seq<nat>, from: nat)
    requires OrderedBy(sub, all, at) && from <= |sub|
    ensures OrderedBy(sub[from..], all, at[from..])
  {
  }

  /** The two passes together. */
  lemma Placement(jobs: seq<Job>, shown: seq<Option<string>>, kept: seq<Option<Job>>, rest: seq<Job>, order: seq<nat>,
                  lanes: seq<Option<Job>>, extra: seq<Job>, from: nat)
    requires Keeping(kept, rest, jobs, Homes(shown, |kept|), order) && Filling(kept, rest, lanes, extra, from)
    ensures |lanes| == |kept| && Placed(lanes) + multiset(extra) == multiset(jobs)
    ensures extra != [] ==> AllTaken(lanes)
    ensures OrderedBy(extra, jobs, order[from..]) && ShownStay(jobs, shown, lanes)
  {
    OrderedTail(rest, jobs, order, from);
    KeptStay(jobs, shown, kept, lanes);
  }

  function BothPasses(jobs: seq<Job>, shown: seq<Option<string>>, count: nat): (seq<Option<Job>>, seq<Job>) {
    var kept := Keep(NoJobs(count), [], jobs, Homes(shown, count));
    Fill(kept.0, [], kept.1)
  }

  /** `placeJobs`. Every job lands exactly once, in a lane or on deck; a job already shown in a lane
      stays there if no other job has its key; jobs go on deck only when every lane is taken, in
      their order, ahead of `next`. */
  method PlaceJobs(slots: int, jobs: seq<Job>, next: seq<Job>, shown: seq<Option<string>>)
    returns (lanes: seq<Option<Job>>, upcoming: seq<Job>, ghost extra: seq<Job>, ghost at: seq<nat>)
    ensures |lanes| == LaneCount(slots)
    ensures Placed(lanes) + multiset(extra) == multiset(jobs)
    ensures upcoming == extra + next
    ensures extra != [] ==> AllTaken(lanes)
    ensures OrderedBy(extra, jobs, at)
    ensures ShownStay(jobs, shown, lanes)
    ensures (lanes, extra) == BothPasses(jobs, shown, LaneCount(slots))
  {
    var count := LaneCount(slots);
    var home := Homes(shown, count);
    var kept, rest := KeepShown(jobs, home, count);
    var filled, more := FillFree(kept, rest);
    lanes, upcoming, extra := filled, more + next, more;
    at := PassesPlace(jobs, shown, count);
  }

  /** What the two passes leave, from empty lanes. */
  lemma PassesPlace(jobs: seq<Job>, shown: seq<Option<string>>, count: nat) returns (at: seq<nat>)
    ensures var kept := Keep(NoJobs(count), [], jobs, Homes(shown, count));
      var filled := Fill(kept.0, [], kept.1);
      && |filled.0| == count && Placed(filled.0) + multiset(filled.1) == multiset(jobs)
      && (filled.1 != [] ==> AllTaken(filled.0))
      && OrderedBy(filled.1, jobs, at) && ShownStay(jobs, shown, filled.0)
  {
    var home := Homes(shown, count);
    KeepingNothing(count, home);
    var order := KeepKeeps(NoJobs(count), [], [], home, [], jobs);
    assert [] + jobs == jobs;
    var kept := Keep(NoJobs(count), [], jobs, home);
    assert Filling(kept.0, [], kept.0, [], 0);
    var from := FillFills(kept.0, [], kept.0, [], 0, kept.1);
    assert [] + kept.1 == kept.1;
    var filled := Fill(kept.0, [], kept.1);
    Placement(jobs, shown, kept.0, kept.1, order, filled.0, filled.1, from);
    at := order[from..];
  }

  // --- which lane -----------------------------------------------------------------------

  function CountFree<J>(lanes: seq<Option<J>>): nat {
    if lanes == [] then 0 else (if lanes[0].None? then 1 else 0) + CountFree(lanes[1..])
  }

  lemma {:induction false} CountNone<J>(lanes: seq<Option<J>>)
    requires FreeLane(lanes) == |lanes|
    ensures CountFree(lanes) == 0
  {
    if lanes != [] {
      CountNone(lanes[1..]);
    }
  }

  /** Taking the first free lane: one less is free before every later lane. */
  lemma {:induction false} CountTaken<J>(lanes: seq<Option<J>>, job: J, k: nat)
    requires FreeLane(lanes) < |lanes| && k <= |lanes|
    ensures var after := lanes[FreeLane(lanes) := Some(job)];
      CountFree(lanes[..k]) == CountFree(after[..k]) + if FreeLane(lanes) < k then 1 else 0
    ensures k <= FreeLane(lanes) ==> CountFree(lanes[..k]) == 0
  {
    var free := FreeLane(lanes);
    var after := lanes[free := Some(job)];
    if k > 0 {
      assert lanes[..k][1..] == lanes[1..][..k - 1];
      if free == 0 {
        assert after[..k][1..] == lanes[1..][..k - 1];
      } else {
        assert after[..k][1..] == lanes[1..][free - 1 := Some(job)][..k - 1];
        CountTaken(lanes[1..], job, k - 1);
      }
    }
  }

  /** Every free lane before which `n` are free has got job `n`; the others are as they were. */
  predicate TakenInOrder<J(==)>(lanes: seq<Option<J>>, rest: seq<J>, after: seq<Option<J>>) {
    && |after| == |lanes|
    && forall k :: 0 <= k < |lanes| ==> after[k] == LaneAfter(lanes, rest, k)
  }

  function LaneAfter<J>(lanes: seq<Option<J>>, rest: seq<J>, k: nat): Option<J>
    requires k < |lanes|
  {
    var n := CountFree(lanes[..k]);
    if lanes[k].None? && n < |rest| then Some(rest[n]) else lanes[k]
  }

  function Behind<J>(rest: seq<J>, n: nat): seq<J> {
    if n < |rest| then rest[n..] else []
  }

  /** The second pass takes the free lanes from the first on, in the order of the jobs. Those that are left
      over when none is free are extra. */
  lemma {:induction false} FillInOrder<J>(lanes: seq<Option<J>>, extra: seq<J>, rest: seq<J>)
    requires extra != [] ==> FreeLane(lanes) == |lanes|
    ensures TakenInOrder(lanes, rest, Fill(lanes, extra, rest).0)
    ensures Fill(lanes, extra, rest).1 == extra + Behind(rest, CountFree(lanes))
    decreases |rest|
  {
    if rest != [] {
      var free := FreeLane(lanes);
      if free < |lanes| {
        FillTakes(lanes, extra, rest);
      } else {
        CountNone(lanes);
        FillInOrder(lanes, extra + [rest[0]], rest[1..]);
        assert extra + [rest[0]] + rest[1..] == extra + rest && rest[0..] == rest;
        assert [rest[0]] + rest[1..] == rest;
        if |rest| > 1 {
          assert rest[1..][0..] == rest[1..];
        }
      }
    }
  }

  lemma {:induction false} FillTakes<J>(lanes: seq<Option<J>>, extra: seq<J>, rest: seq<J>)
    requires extra == [] && rest != [] && FreeLane(lanes) < |lanes|
    ensures TakenInOrder(lanes, rest, Fill(lanes, extra, rest).0)
    ensures Fill(lanes, extra, rest).1 == extra + Behind(rest, CountFree(lanes))
    decreases |rest|, 0
  {
    var free := FreeLane(lanes);
    var after := lanes[free := Some(rest[0])];
    FillInOrder(after, extra, rest[1..]);
    CountTaken(lanes, rest[0], |lanes|);
    WholePrefix(lanes);
    WholePrefix(after);
    forall k | 0 <= k < |lanes| ensures LaneAfter(after, rest[1..], k) == LaneAfter(lanes, rest, k) {
      CountTaken(lanes, rest[0], k);
    }
  }

  /** The first of the jobs whose home the lane is. */
  function FirstHome<J>(jobs: seq<J>, home: J -> nat, lane: nat): Option<J> {
    if jobs == [] then None
    else if home(jobs[0]) == lane then Some(jobs[0])
    else FirstHome(jobs[1..], home, lane)
  }

  /** The first pass gives each free lane the first of the jobs whose home it is. */
  lemma {:induction false} KeepTakesFirst<J>(lanes: seq<Option<J>>, rest: seq<J>, jobs: seq<J>, home: J -> nat)
    ensures var r := Keep(lanes, rest, jobs, home);
      && |r.0| == |lanes|
      && forall k :: 0 <= k < |lanes| ==> r.0[k] == if lanes[k].Some? then lanes[k] else FirstHome(jobs, home, k)
    decreases |jobs|
  {
    if jobs != [] {
      var lane := home(jobs[0]);
      if lane < |lanes| && lanes[lane].None? {
        KeepTakesFirst(lanes[lane := Some(jobs[0])], rest, jobs[1..], home);
      } else {
        KeepTakesFirst(lanes, rest + [jobs[0]], jobs[1..], home);
      }
    }
  }

  /** Which lane a job gets: a lane that shows jobs of the list gets the first of them; of the others the
      first gets the first of the jobs that wait, the second the second, and so on. */
  lemma WhichLane(jobs: seq<Job>, shown: seq<Option<string>>, count: nat, k: nat)
    requires k < count
    ensures var kept := Keep(NoJobs(count), [], jobs, Homes(shown, count));
      && |BothPasses(jobs, shown, count).0| == |kept.0| == count
      && kept.0[k] == FirstHome(jobs, Homes(shown, count), k)
      && BothPasses(jobs, shown, count).0[k] ==
           (var n := CountFree(kept.0[..k]);
            if kept.0[k].Some? then kept.0[k] else if n < |kept.1| then Some(kept.1[n]) else None)
  {
    var kept := Keep(NoJobs(count), [], jobs, Homes(shown, count));
    KeepTakesFirst(NoJobs(count), [], jobs, Homes(shown, count));
    FillInOrder(kept.0, [], kept.1);
  }

  // --- the rows of the speed section ----------------------------------------------------

  /** No layer has two rows. */
  ghost predicate OneRowEach(rows: seq<Option<string>>) {
    forall i, j :: 0 <= i < j < |rows| && rows[i].Some? ==> rows[i] != rows[j]
  }

  ghost predicate HasRow(rows: seq<Option<string>>, name: string) {
    Some(name) in rows
  }

  lemma RowAdded(rows: seq<Option<string>>, at: nat, name: string)
    requires OneRowEach(rows) && !HasRow(rows, name) && at < |rows| && rows[at].None?
    ensures OneRowEach(rows[at := Some(name)]) && HasRow(rows[at := Some(name)], name)
    ensures forall n :: HasRow(rows, n) ==> HasRow(rows[at := Some(name)], n)
  {
    var after := rows[at := Some(name)];
    assert after[at] == Some(name);
    forall n | HasRow(rows, n) ensures HasRow(after, n) {
      var i :| 0 <= i < |rows| && rows[i] == Some(n);
      assert after[i] == Some(n);
    }
  }

  /** `name in known` on a plain object: its own keys, and the names every object has. */
  predicate InObject(name: string, known: seq<string>) {
    name in known || name in Reconcile.BUILT_IN
  }

  /** The rows that go on: each keeps its layer while the object of known layers has the name. */
  function RowsKept(speedRows: seq<Option<string>>, known: seq<string>, lines: nat): seq<Option<string>> {
    seq(lines, i requires 0 <= i < lines =>
      if i < |speedRows| && speedRows[i].Some? && InObject(speedRows[i].value, known) then speedRows[i] else None)
  }

  /** A layer without a row takes the first free one. */
  function WithRow(rows: seq<Option<string>>, name: string): seq<Option<string>> {
    var free := FreeLane(rows);
    if Some(name) !in rows && free < |rows| then rows[free := Some(name)] else rows
  }

  function WithRows(rows: seq<Option<string>>, names: seq<string>): seq<Option<string>>
    decreases |names|
  {
    if names == [] then rows else WithRows(WithRow(rows, names[0]), names[1..])
  }

  lemma WithRowAdds(rows: seq<Option<string>>, name: string)
    requires OneRowEach(rows)
    ensures var after := WithRow(rows, name);
      && |after| == |rows| && OneRowEach(after) && (HasRow(after, name) || AllTaken(after))
      && (forall i :: 0 <= i < |rows| && rows[i].Some? ==> after[i] == rows[i])
      && (forall i :: 0 <= i < |rows| && after[i] != rows[i] ==> after[i] == Some(name))
      && (AllTaken(rows) ==> after == rows)
  {
    var free := FreeLane(rows);
    if Some(name) !in rows && free < |rows| {
      RowAdded(rows, free, name);
    }
  }

  lemma {:induction false} WithRowsAdds(rows: seq<Option<string>>, names: seq<string>)
    requires OneRowEach(rows)
    ensures var after := WithRows(rows, names);
      && |after| == |rows| && OneRowEach(after)
      && (forall i :: 0 <= i < |names| ==> HasRow(after, names[i]) || AllTaken(after))
      && (forall i :: 0 <= i < |rows| && rows[i].Some? ==> after[i] == rows[i])
      && (forall i :: 0 <= i < |rows| && after[i] != rows[i] ==> after[i].Some? && after[i].value in names)
      && (AllTaken(rows) ==> after == rows)
    decreases |names|
  {
    if names != [] {
      var first := WithRow(rows, names[0]);
      WithRowAdds(rows, names[0]);
      WithRowsAdds(first, names[1..]);
      if HasRow(first, names[0]) {
        var i :| 0 <= i < |first| && first[i] == Some(names[0]);
        assert WithRows(first, names[1..])[i] == Some(names[0]);
      }
      assert forall i :: 1 <= i < |names| ==> names[i] == names[1..][i - 1];
    }
  }

  /** The layers without a row. */
  function Waiting(rows: seq<Option<string>>, names: seq<string>): seq<string> {
    if names == [] then []
    else (if Some(names[0]) in rows then [] else [names[0]]) + Waiting(rows, names[1..])
  }

  lemma {:induction false} WaitingAfter(rows: seq<Option<string>>, names: seq<string>, at: nat, name: string)
    requires at < |rows| && rows[at].None? && name !in names
    ensures Waiting(rows[at := Some(name)], names) == Waiting(rows, names)
  {
    if names != [] {
      var after := rows[at := Some(name)];
      WaitingAfter(rows, names[1..], at, name);
      if Some(names[0]) in rows {
        var i :| 0 <= i < |rows| && rows[i] == Some(names[0]);
        assert after[i] == Some(names[0]);
      }
    }
  }

  lemma {:induction false} NoRowLeft(rows: seq<Option<string>>, names: seq<string>)
    requires FreeLane(rows) == |rows|
    ensures WithRows(rows, names) == rows
    decreases |names|
  {
    if names != [] {
      NoRowLeft(rows, names[1..]);
    }
  }

  /** The layers without a row take the free rows from the top, in their order. */
  lemma {:induction false} RowsFillFromTop(rows: seq<Option<string>>, names: seq<string>)
    requires Distinct(names)
    ensures TakenInOrder(rows, Waiting(rows, names), WithRows(rows, names))
    decreases |names|
  {
    FillInOrder(rows, [], Waiting(rows, names));
    RowsAreFilled(rows, names);
  }

  lemma {:induction false} RowsAreFilled(rows: seq<Option<string>>, names: seq<string>)
    requires Distinct(names)
    ensures WithRows(rows, names) == Fill(rows, [], Waiting(rows, names)).0
    decreases |names|
  {
    if names != [] {
      assert names == [names[0]] + names[1..];
      assert forall i :: 1 <= i < |names| ==> names[1..][i - 1] == names[i];
      assert names[0] !in names[1..];
      var free, waiting := FreeLane(rows), Waiting(rows, names[1..]);
      if Some(names[0]) in rows {
        RowsAreFilled(rows, names[1..]);
        assert [] + waiting == waiting;
      } else if free < |rows| {
        RowsAreFilled(rows[free := Some(names[0])], names[1..]);
        WaitingAfter(rows, names[1..], free, names[0]);
        assert ([names[0]] + waiting)[1..] == waiting;
      } else {
        NoRowLeft(rows, names);
        NothingTaken(rows, [], Waiting(rows, names));
      }
    }
  }

  lemma {:induction false} NothingTaken<J>(lanes: seq<Option<J>>, extra: seq<J>, rest: seq<J>)
    requires FreeLane(lanes) == |lanes|
    ensures Fill(lanes, extra, rest).0 == lanes
    decreases |rest|
  {
    if rest != [] {
      NothingTaken(lanes, extra + [rest[0]], rest[1..]);
    }
  }

  /** A layer in a row that is not known: it had that row, and every object has its name. */
  predicate Leftover(speedRows: seq<Option<string>>, known: seq<string>, i: nat) {
    i < |speedRows| && speedRows[i].Some? && speedRows[i].value !in known && speedRows[i].value in Reconcile.BUILT_IN
  }

  /** The row assignment of `renderSpeed`. Known layers stay in their rows, the others fill the free rows
      from the top, and a layer is left out only for want of rows. A row shows a layer that is not known
      if and only if it is left over under a name every object has. */
  method AssignRows(speedRows: seq<Option<string>>, known: seq<string>, lines: nat) returns (rows: seq<Option<string>>)
    requires OneRowEach(speedRows)
    ensures rows == WithRows(RowsKept(speedRows, known, lines), known)
    ensures |rows| == lines && OneRowEach(rows)
    ensures forall i :: 0 <= i < lines && rows[i].Some? ==> InObject(rows[i].value, known)
    ensures forall i ::
      0 <= i < lines && i < |speedRows| && speedRows[i].Some? && InObject(speedRows[i].value, known) ==>
              rows[i] == speedRows[i]
    ensures forall i :: 0 <= i < |known| ==> HasRow(rows, known[i]) || AllTaken(rows)
    ensures forall i :: 0 <= i < lines ==>
              (rows[i].Some? && rows[i].value !in known <==> Leftover(speedRows, known, i))
  {
    rows := RowsKept(speedRows, known, lines);
    ghost var had := rows;
    var i := 0;
    WholeTail(known);
    while i < |known|
      invariant 0 <= i <= |known|
      invariant WithRows(rows, known[i..]) == WithRows(had, known)
    {
      NextTail(known, i);
      if Some(known[i]) !in rows {
        var free := FreeLane(rows);
        if free < |rows| {
          rows := rows[free := Some(known[i])];
        }
      }
      i := i + 1;
    }
    WithRowsAdds(had, known);
  }

  /** A layer called `constructor` keeps its row when nothing knows it any more. */
  lemma BuiltInNameStays()
    ensures WithRows(RowsKept([Some("constructor")], [], 1), []) == [Some("constructor")]
    ensures Leftover([Some("constructor")], [], 0)
  {
    assert RowsKept([Some("constructor")], [], 1) == [Some("constructor")];
  }

  // --- the order of the machines --------------------------------------------------------

  function Filter(names: seq<string>, keep: set<string>): seq<string> {
    if names == [] then []
    else (if names[0] in keep then [names[0]] else []) + Filter(names[1..], keep)
  }

  /** The names of a payload not shown yet, each once, in the payload's order. */
  function Newcomers(shown: seq<string>, names: seq<string>): seq<string>
    decreases |names|
  {
    if names == [] then []
    else if names[0] in shown then Newcomers(shown, names[1..])
    else [names[0]] + Newcomers(shown + [names[0]], names[1..])
  }

  /** The order after a payload: those still connected as they were, then the newcomers. */
  function NextOrder(shown: seq<string>, names: seq<string>): seq<string> {
    var kept := Filter(shown, Elements(names));
    kept + Newcomers(kept, names)
  }

  /** `a` is shown before `b`. */
  ghost predicate Before(names: seq<string>, a: string, b: string) {
    exists i, j :: 0 <= i < j < |names| && names[i] == a && names[j] == b
  }

  class MachineList {
    var shownOrder: seq<string>

    constructor ()
      ensures shownOrder == []
    {
      shownOrder := [];
    }

    /** `inPlace`, on the names of a payload. */
    method InPlace(names: seq<string>)
      modifies this
      ensures shownOrder == NextOrder(old(shownOrder), names)
    {
      var kept := StillThere(shownOrder, Elements(names));
      shownOrder := WithNewcomers(kept, names);
    }
  }

  method StillThere(shown: seq<string>, keep: set<string>) returns (order: seq<string>)
    ensures order == Filter(shown, keep)
  {
    order := [];
    WholeTail(shown);
    for i := 0 to |shown|
      invariant order + Filter(shown[i..], keep) == Filter(shown, keep)
    {
      NextTail(shown, i);
      Regroup(order, [shown[i]], Filter(shown[i + 1..], keep));
      if shown[i] in keep {
        order := order + [shown[i]];
      }
    }
  }

  method WithNewcomers(kept: seq<string>, names: seq<string>) returns (order: seq<string>)
    ensures order == kept + Newcomers(kept, names)
  {
    order := kept;
    WholeTail(names);
    for i := 0 to |names|
      invariant order + Newcomers(order, names[i..]) == kept + Newcomers(kept, names)
    {
      NextTail(names, i);
      if names[i] !in order {
        Regroup(order, [names[i]], Newcomers(order + [names[i]], names[i + 1..]));
        order := order + [names[i]];
      }
    }
  }

  /** The order after a sequence of payloads. */
  function OrderAfter(shown: seq<string>, payloads: seq<seq<string>>): seq<string>
    decreases |payloads|
  {
    if payloads == [] then shown else OrderAfter(NextOrder(shown, payloads[0]), payloads[1..])
  }

  lemma {:induction false} FilterMember(names: seq<string>, keep: set<string>, n: string)
    ensures n in Filter(names, keep) <==> n in names && n in keep
  {
    if names != [] {
      FilterMember(names[1..], keep, n);
      assert names == [names[0]] + names[1..];
    }
  }

  lemma {:induction false} NewcomersMember(shown: seq<string>, names: seq<string>, n: string)
    ensures n in Newcomers(shown, names) <==> n in names && n !in shown
    decreases |names|
  {
    if names != [] {
      assert names == [names[0]] + names[1..];
      if names[0] in shown {
        NewcomersMember(shown, names[1..], n);
      } else {
        NewcomersMember(shown + [names[0]], names[1..], n);
      }
    }
  }

  lemma {:induction false} NewcomersDistinct(shown: seq<string>, names: seq<string>)
    ensures Distinct(Newcomers(shown, names))
    decreases |names|
  {
    if names != [] {
      if names[0] in shown {
        NewcomersDistinct(shown, names[1..]);
      } else {
        var rest := Newcomers(shown + [names[0]], names[1..]);
        NewcomersDistinct(shown + [names[0]], names[1..]);
        NewcomersMember(shown + [names[0]], names[1..], names[0]);
      }
    }
  }

  lemma {:induction false} FilterDistinct(names: seq<string>, keep: set<string>)
    requires Distinct(names)
    ensures Distinct(Filter(names, keep))
  {
    if names != [] {
      var rest := names[1..];
      assert forall i :: 0 <= i < |rest| ==> rest[i] == names[i + 1];
      FilterDistinct(rest, keep);
      FilterMember(rest, keep, names[0]);
      assert names[0] !in rest;
    }
  }

  lemma {:induction false} FilterKeepsOrder(names: seq<string>, keep: set<string>, a: string, b: string)
    requires Before(names, a, b) && a in keep && b in keep
    ensures Before(Filter(names, keep), a, b)
  {
    var rest, r := names[1..], Filter(names, keep);
    var i, j :| 0 <= i < j < |names| && names[i] == a && names[j] == b;
    var rf := Filter(rest, keep);
    if i == 0 {
      FilterMember(rest, keep, b);
      assert rest[j - 1] == b;
      var k :| 0 <= k < |rf| && rf[k] == b;
      assert r[0] == a && r[k + 1] == b;
    } else {
      assert rest[i - 1] == a && rest[j - 1] == b;
      FilterKeepsOrder(rest, keep, a, b);
      var k, l :| 0 <= k < l < |rf| && rf[k] == a && rf[l] == b;
      var off := if names[0] in keep then 1 else 0;
      assert r[k + off] == a && r[l + off] == b;
    }
  }

  /** After a payload each of its machines is shown exactly once, and no other. */
  lemma OrderShowsPayload(shown: seq<string>, names: seq<string>)
    requires Distinct(shown)
    ensures Distinct(NextOrder(shown, names))
    ensures forall n :: n in NextOrder(shown, names) <==> n in names
  {
    var kept := Filter(shown, Elements(names));
    FilterDistinct(shown, Elements(names));
    NewcomersDistinct(kept, names);
    forall n
      ensures n in kept ==> n in names
      ensures n in Newcomers(kept, names) <==> n in names && n !in kept
    {
      FilterMember(shown, Elements(names), n);
      NewcomersMember(kept, names, n);
    }
    var more := Newcomers(kept, names);
    forall i, j | 0 <= i < |kept| && 0 <= j < |more| ensures kept[i] != more[j] {
      assert more[j] in more && kept[i] in kept;
    }
    forall n | n in names ensures n in kept + more {
      assert n in kept || n in more;
    }
  }

  lemma NextOrderKeepsOrder(shown: seq<string>, names: seq<string>, a: string, b: string)
    requires Before(shown, a, b) && a in names && b in names
    ensures Before(NextOrder(shown, names), a, b)
  {
    FilterKeepsOrder(shown, Elements(names), a, b);
    var kept := Filter(shown, Elements(names));
    var i, j :| 0 <= i < j < |kept| && kept[i] == a && kept[j] == b;
    assert NextOrder(shown, names)[i] == a && NextOrder(shown, names)[j] == b;
  }

  /** Newcomers stand behind the machines shown before. */
  lemma NewcomersBehind(shown: seq<string>, names: seq<string>, a: string, b: string)
    requires a in shown && a in names && b in names && b !in shown
    ensures Before(NextOrder(shown, names), a, b)
  {
    var kept := Filter(shown, Elements(names));
    FilterMember(shown, Elements(names), a);
    FilterMember(shown, Elements(names), b);
    NewcomersMember(kept, names, b);
    var i :| 0 <= i < |kept| && kept[i] == a;
    var j :| 0 <= j < |Newcomers(kept, names)| && Newcomers(kept, names)[j] == b;
    assert NextOrder(shown, names)[i] == a && NextOrder(shown, names)[|kept| + j] == b;
  }

  lemma {:induction false} NewcomersInOrder(shown: seq<string>, names: seq<string>, i: nat, b: string)
    requires i < |names| && names[i] !in shown && b in names && b !in names[..i + 1] && b !in shown
    ensures Before(Newcomers(shown, names), names[i], b)
    decreases |names|
  {
    var a, r := names[i], Newcomers(shown, names);
    assert names == [names[0]] + names[1..] && names[0] in names[..i + 1];
    if names[0] in shown {
      assert names[..i + 1][1..] == names[1..][..i];
      NewcomersInOrder(shown, names[1..], i - 1, b);
    } else if names[0] == a {
      var rest := Newcomers(shown + [a], names[1..]);
      NewcomersMember(shown + [a], names[1..], b);
      var j :| 0 <= j < |rest| && rest[j] == b;
      assert r[0] == a && r[j + 1] == b;
    } else {
      var rest := Newcomers(shown + [names[0]], names[1..]);
      assert names[..i + 1][1..] == names[1..][..i];
      NewcomersInOrder(shown + [names[0]], names[1..], i - 1, b);
      var k, l :| 0 <= k < l < |rest| && rest[k] == a && rest[l] == b;
      assert r[k + 1] == a && r[l + 1] == b;
    }
  }

  /** Among themselves newcomers stand in the order in which the payload first names them. */
  lemma NewcomersAsNamed(shown: seq<string>, names: seq<string>, i: nat, b: string)
    requires i < |names| && names[i] !in shown && b in names && b !in names[..i + 1] && b !in shown
    ensures Before(NextOrder(shown, names), names[i], b)
  {
    var kept := Filter(shown, Elements(names));
    FilterMember(shown, Elements(names), names[i]);
    FilterMember(shown, Elements(names), b);
    NewcomersInOrder(kept, names, i, b);
    var more := Newcomers(kept, names);
    var k, l :| 0 <= k < l < |more| && more[k] == names[i] && more[l] == b;
    assert NextOrder(shown, names)[|kept| + k] == names[i] && NextOrder(shown, names)[|kept| + l] == b;
  }

  /** Two machines connected through any number of payloads never change places, whatever order the
      payloads list them in and whoever else comes or goes. */
  lemma {:induction false} MachinesStayInOrder(shown: seq<string>, payloads: seq<seq<string>>, a: string, b: string)
    requires Before(shown, a, b)
    requires forall i :: 0 <= i < |payloads| ==> a in payloads[i] && b in payloads[i]
    ensures Before(OrderAfter(shown, payloads), a, b)
    decreases |payloads|
  {
    if payloads != [] {
      NextOrderKeepsOrder(shown, payloads[0], a, b);
      MachinesStayInOrder(NextOrder(shown, payloads[0]), payloads[1..], a, b);
    }
  }
}
