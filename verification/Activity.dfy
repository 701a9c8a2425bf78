/**
 One machine's claims, page increments and counters, kept up to date from the messages that pass
 between its processor and the library.

 Each call is specified by `Apply`, a function on the activity; the theorems relate what the
 activity holds after any history to the history itself.
 */
module Activities {
  import opened Sequences
  import opened Text

  const RATE_WINDOW: int := 60

  datatype Session = Session(engine: Option<string>, precision: Option<string>, device: Option<string>)

  datatype Claim = Claim(id: string, sid: string, volume: string, started: Option<int>, done: nat, total: nat)

  /** Pages read at one moment. */
  datatype Increment = Increment(at: int, pages: nat)

  datatype Stats = Stats(day: string, volumes: nat, pages: nat, busySeconds: int, busyCarry: real,
                         totalVolumes: nat, totalPages: nat)

  /** `devices` labels the machine's devices. */
  datatype Activity = Activity(sessions: map<string, Session>, claims: seq<Claim>, pages: seq<Increment>,
                               devices: map<string, string>, stats: Stats)

  /** What reaches the activity. `Ready` lists the device of each stage, by stage name. `Failed` is a volume
      that failed or was returned; `Rate` is a reading of the page rate. */
  datatype What =
    | OpenSession(sid: string, engine: string)
    | Volume(sid: string, id: string, title: string, volumeTitle: string)
    | SetDevices(labels: map<string, string>)
    | Ready(sid: string, precision: Option<string>, stages: seq<string>)
    | VolumeStarted(id: string, pages: nat)
    | Page(id: string, done: nat, total: nat)
    | VolumeDone(id: string, pages: nat, seconds: real, day: string)
    | Failed(id: string)
    | Released(ids: seq<string>)
    | Exit(sid: string)
    | Clear
    | Rate

  /** Something that happened, at a clock reading. */
  datatype Step = Step(what: What, at: int)

  // --- the calls ------------------------------------------------------------------------

  /** The position of the first claim with the id, or the number of claims. */
  function FindClaim(claims: seq<Claim>, id: string): (i: nat)
    ensures i <= |claims|
    ensures i < |claims| ==> claims[i].id == id
    ensures forall j :: 0 <= j < i ==> claims[j].id != id
  {
    if claims == [] || claims[0].id == id then 0 else 1 + FindClaim(claims[1..], id)
  }

  function RemoveClaim(claims: seq<Claim>, id: string): seq<Claim> {
    if claims == [] then []
    else (if claims[0].id != id then [claims[0]] else []) + RemoveClaim(claims[1..], id)
  }

  function RemoveClaims(claims: seq<Claim>, ids: seq<string>): seq<Claim>
    decreases |ids|
  {
    if ids == [] then claims else RemoveClaims(RemoveClaim(claims, ids[0]), ids[1..])
  }

  function RemoveSession(claims: seq<Claim>, sid: string): seq<Claim> {
    if claims == [] then []
    else (if claims[0].sid != sid then [claims[0]] else []) + RemoveSession(claims[1..], sid)
  }

  function Max(a: nat, b: nat): nat {
    if a >= b then a else b
  }

  function StartedAt(c: Claim, now: int): Claim {
    if c.started.Some? then c else c.(started := Some(now))
  }

  /** What one step pushes onto the page increments. */
  function Pushed(a: Activity, s: Step): seq<Increment> {
    if s.what.Page? then
      var i := FindClaim(a.claims, s.what.id);
      if i < |a.claims| && s.what.done > a.claims[i].done then [Increment(s.at, s.what.done - a.claims[i].done)] else []
    else []
  }

  /** The increments without the expired ones at the front. */
  function DropExpired(pages: seq<Increment>, now: int): seq<Increment> {
    if pages != [] && now - pages[0].at > RATE_WINDOW then DropExpired(pages[1..], now) else pages
  }

  function CountVolume(s: Stats, pages: nat, seconds: real, day: string): Stats {
    var t := if s.day != day then s.(day := day, volumes := 0, pages := 0, busySeconds := 0, busyCarry := 0.0) else s;
    var carry := t.busyCarry + if seconds > 0.0 then seconds else 0.0;
    t.(volumes := t.volumes + 1, pages := t.pages + pages,
       busySeconds := t.busySeconds + carry.Floor, busyCarry := carry - carry.Floor as real,
       totalVolumes := t.totalVolumes + 1, totalPages := t.totalPages + pages)
  }

  function DisplayName(title: string, volumeTitle: string): string {
    if title == "" || title == "." then volumeTitle else title + "/" + volumeTitle
  }

  predicate IsGpu(device: string) {
    "gpu" <= device
  }

  function FirstGpu(devices: seq<string>): (r: Option<string>)
    ensures r.Some? ==> exists i :: 0 <= i < |devices| && devices[i] == r.value && IsGpu(devices[i])
                                    && forall j :: 0 <= j < i ==> !IsGpu(devices[j])
    ensures r.None? ==> forall i :: 0 <= i < |devices| ==> !IsGpu(devices[i])
  {
    if devices == [] then None
    else if IsGpu(devices[0]) then Some(devices[0])
    else
      var r := FirstGpu(devices[1..]);
      assert forall j :: 1 <= j < |devices| ==> devices[j] == devices[1..][j - 1];
      assert r.Some? ==> exists i :: 1 <= i < |devices| && devices[i] == r.value && IsGpu(devices[i])
                                     && forall j :: 0 <= j < i ==> !IsGpu(devices[j]) by {
        if r.Some? {
          var i :| 0 <= i < |devices[1..]| && devices[1..][i] == r.value && IsGpu(devices[1..][i])
                   && forall j :: 0 <= j < i ==> !IsGpu(devices[1..][j]);
          assert devices[i + 1] == r.value;
        }
      }
      r
  }

  function Labelled(device: string, labels: map<string, string>): string {
    if device in labels && labels[device] != "" && labels[device] != device then device + " " + labels[device]
    else device
  }

  /** The device a session is shown on: its first GPU, else its first device, with its label. */
  function PickDevice(stages: seq<string>, labels: map<string, string>): Option<string> {
    match FirstGpu(stages)
    case Some(gpu) => Some(Labelled(gpu, labels))
    case None => if stages == [] then None else Some(Labelled(stages[0], labels))
  }

  function Apply(a: Activity, s: Step): Activity {
    match s.what
    case OpenSession(sid, engine) => a.(sessions := a.sessions[sid := Session(Some(engine), None, None)])
    case Volume(sid, id, title, volumeTitle) =>
      a.(claims := a.claims + [Claim(id, sid, DisplayName(title, volumeTitle), None, 0, 0)])
    case SetDevices(labels) => a.(devices := labels)
    case Ready(sid, precision, stages) =>
      if sid in a.sessions then
        var device := PickDevice(stages, a.devices);
        a.(sessions := a.sessions[sid := a.sessions[sid].(precision := precision, device := device)])
      else a
    case VolumeStarted(id, pages) =>
      var i := FindClaim(a.claims, id);
      if i == |a.claims| then a
      else
        var c := StartedAt(a.claims[i], s.at);
        a.(claims := a.claims[i := if pages > 0 then c.(total := pages) else c])
    case Page(id, done, total) =>
      var i := FindClaim(a.claims, id);
      if i == |a.claims| then a
      else
        var c := StartedAt(a.claims[i], s.at).(done := Max(done, a.claims[i].done));
        a.(claims := a.claims[i := if total > 0 then c.(total := total) else c], pages := a.pages + Pushed(a, s))
    case VolumeDone(id, pages, seconds, day) =>
      a.(claims := RemoveClaim(a.claims, id), stats := CountVolume(a.stats, pages, seconds, day))
    case Failed(id) => a.(claims := RemoveClaim(a.claims, id))
    case Released(ids) => a.(claims := RemoveClaims(a.claims, ids))
    case Exit(sid) => a.(sessions := a.sessions - {sid}, claims := RemoveSession(a.claims, sid))
    case Clear => a.(sessions := map[], claims := [])
    case Rate => a.(pages := DropExpired(a.pages, s.at))
  }

  function Run(a: Activity, steps: seq<Step>): Activity
    decreases |steps|
  {
    if steps == [] then a else Apply(Run(a, steps[..|steps| - 1]), steps[|steps| - 1])
  }

  function SumPages(pages: seq<Increment>): nat {
    if pages == [] then 0 else pages[0].pages + SumPages(pages[1..])
  }

  /** An activity nothing has reached yet, counting on from the stored counts. */
  function Idle(stats: Stats): Activity {
    Activity(map[], [], [], map[], stats)
  }

  // --- the activity in place ------------------------------------------------------------

  lemma RemoveNext(claims: seq<Claim>, i: nat, id: string, kept: seq<Claim>)
    requires i < |claims|
    ensures kept + RemoveClaim(claims[i..], id) ==
      (if claims[i].id != id then kept + [claims[i]] else kept) + RemoveClaim(claims[i + 1..], id)
  {
    NextTail(claims, i);
    Regroup(kept, [claims[i]], RemoveClaim(claims[i + 1..], id));
    assert [] + RemoveClaim(claims[i + 1..], id) == RemoveClaim(claims[i + 1..], id);
  }

  method Retained(claims: seq<Claim>, id: string) returns (kept: seq<Claim>)
    ensures kept == RemoveClaim(claims, id)
  {
    kept := [];
    WholeTail(claims);
    for i := 0 to |claims|
      invariant kept + RemoveClaim(claims[i..], id) == RemoveClaim(claims, id)
    {
      RemoveNext(claims, i, id, kept);
      if claims[i].id != id {
        kept := kept + [claims[i]];
      }
    }
  }

  class Tracker {
    var sessions: map<string, Session>
    var claims: seq<Claim>
    var pages: seq<Increment>
    var devices: map<string, string>
    var stats: Stats

    ghost function View(): Activity
      reads this
    {
      Activity(sessions, claims, pages, devices, stats)
    }

    /** Counts continue from those stored. */
    constructor (stats: Stats)
      ensures View() == Idle(stats)
    {
      sessions, claims, pages, devices := map[], [], [], map[];
      this.stats := stats;
    }

    /** Forget every claim with the id. */
    method Forget(id: string)
      modifies this`claims
      ensures claims == RemoveClaim(old(claims), id)
    {
      claims := Retained(claims, id);
    }

    method OnPage(id: string, done: nat, total: nat, now: int)
      modifies this`claims, this`pages
      ensures View() == Apply(old(View()), Step(Page(id, done, total), now))
    {
      var delta := 0;
      var i := FindClaim(claims, id);
      if i < |claims| {
        var c := StartedAt(claims[i], now);
        delta := if done > c.done then done - c.done else 0;
        c := c.(done := Max(done, c.done));
        if total > 0 {
          c := c.(total := total);
        }
        claims := claims[i := c];
      }
      if delta > 0 {
        pages := pages + [Increment(now, delta)];
      }
    }

    method OnVolumeDone(id: string, done: nat, seconds: real, day: string, now: int)
      modifies this`claims, this`stats
      ensures View() == Apply(old(View()), Step(VolumeDone(id, done, seconds, day), now))
    {
      Forget(id);
      if stats.day != day {
        stats := Stats(day, 0, 0, 0, 0.0, stats.totalVolumes, stats.totalPages);
      }
      var carry := stats.busyCarry + if seconds > 0.0 then seconds else 0.0;
      var whole := carry.Floor;
      stats := stats.(volumes := stats.volumes + 1, pages := stats.pages + done,
                      busySeconds := stats.busySeconds + whole, busyCarry := carry - whole as real,
                      totalVolumes := stats.totalVolumes + 1, totalPages := stats.totalPages + done);
    }

    method OnReleased(ids: seq<string>, now: int)
      modifies this`claims
      ensures View() == Apply(old(View()), Step(Released(ids), now))
    {
      WholeTail(ids);
      for i := 0 to |ids|
        invariant RemoveClaims(claims, ids[i..]) == RemoveClaims(old(claims), ids)
      {
        NextTail(ids, i);
        Forget(ids[i]);
      }
    }

    /** `op`, `event` and `clear` on everything else. */
    method On(what: What, now: int)
      requires !what.Rate?
      modifies this
      ensures View() == Apply(old(View()), Step(what, now))
    {
      match what {
        case OpenSession(sid, engine) => sessions := sessions[sid := Session(Some(engine), None, None)];
        case Volume(sid, id, title, volumeTitle) =>
          claims := claims + [Claim(id, sid, DisplayName(title, volumeTitle), None, 0, 0)];
        case SetDevices(labels) => devices := labels;
        case Ready(sid, precision, stages) =>
          var device := PickDevice(stages, devices);
          if sid in sessions {
            sessions := sessions[sid := sessions[sid].(precision := precision, device := device)];
          }
        case VolumeStarted(id, count) =>
          var i := FindClaim(claims, id);
          if i < |claims| {
            var c := StartedAt(claims[i], now);
            claims := claims[i := if count > 0 then c.(total := count) else c];
          }
        case Page(id, done, total) => OnPage(id, done, total, now);
        case VolumeDone(id, done, seconds, day) => OnVolumeDone(id, done, seconds, day, now);
        case Failed(id) => Forget(id);
        case Released(ids) => OnReleased(ids, now);
        case Exit(sid) =>
          sessions := sessions - {sid};
          claims := RemoveSession(claims, sid);
        case Clear => sessions, claims := map[], [];
        case Rate =>
      }
    }

    /** Forgets what is too old to count, then sums the rest. */
    method PagesLastMinute(now: int) returns (count: nat)
      modifies this`pages
      ensures View() == Apply(old(View()), Step(Rate, now)) && count == SumPages(pages)
    {
      while pages != [] && now - pages[0].at > RATE_WINDOW
        invariant DropExpired(pages, now) == DropExpired(old(pages), now)
        invariant unchanged(`sessions, `claims, `devices, `stats)
        decreases |pages|
      {
        pages := pages[1..];
      }
      count := 0;
      WholeTail(pages);
      for i := 0 to |pages|
        invariant i <= |pages| && count + SumPages(pages[i..]) == SumPages(pages)
        invariant pages == DropExpired(old(pages), now)
        invariant unchanged(`sessions, `claims, `devices, `stats)
      {
        NextTail(pages, i);
        count := count + pages[i].pages;
      }
    }
  }

  // --- pages of a claim -----------------------------------------------------------------

  /** What the history alone says about a claim: the session holding it, if it is held; the highest page
      reported while it was; its title, when it was first reported on, and the last length reported. */
  datatype Watch = Watch(sid: Option<string>, top: nat, volume: string, first: Option<int>, length: nat)

  const UNSEEN := Watch(None, 0, "", None, 0)

  /** A report on a claim that is held. */
  function Reported(w: Watch, at: int, length: nat): Watch {
    w.(first := if w.first == None then Some(at) else w.first, length := if length == 0 then w.length else length)
  }

  function WatchStep(w: Watch, s: Step, id: string): Watch {
    match s.what
    case Volume(sid, v, title, name) =>
      if v == id then w.(sid := Some(sid), volume := if title in ["", "."] then name else title + "/" + name) else w
    case VolumeStarted(v, pages) => if v == id && w.sid.Some? then Reported(w, s.at, pages) else w
    case Page(p, done, total) =>
      if p == id && w.sid.Some? then Reported(w, s.at, total).(top := Max(done, w.top)) else w
    case VolumeDone(v, _, _, _) => if v == id then w.(sid := None) else w
    case Failed(v) => if v == id then w.(sid := None) else w
    case Released(ids) => if id in ids then w.(sid := None) else w
    case Exit(sid) => if w.sid == Some(sid) then w.(sid := None) else w
    case Clear => w.(sid := None)
    case _ => w
  }

  function Watched(steps: seq<Step>, id: string): Watch
    decreases |steps|
  {
    if steps == [] then UNSEEN
    else WatchStep(Watched(steps[..|steps| - 1], id), steps[|steps| - 1], id)
  }

  /** Everything pushed for a claim over a history. */
  function PushedFor(a: Activity, steps: seq<Step>, id: string): nat
    decreases |steps|
  {
    if steps == [] then 0
    else
      var n := |steps| - 1;
      PushedFor(a, steps[..n], id)
      + if steps[n].what.Page? && steps[n].what.id == id then SumPages(Pushed(Run(a, steps[..n]), steps[n])) else 0
  }

  predicate Opens(s: Step, id: string) {
    s.what.Volume? && s.what.id == id
  }

  /** Claim ids are unique: no history hands one out twice. */
  ghost predicate HandedOutOnce(steps: seq<Step>, id: string) {
    forall i, j :: 0 <= i < j < |steps| ==> !(Opens(steps[i], id) && Opens(steps[j], id))
  }

  /** The claims with one id, in order. */
  function Only(claims: seq<Claim>, id: string): seq<Claim> {
    if claims == [] then []
    else (if claims[0].id == id then [claims[0]] else []) + Only(claims[1..], id)
  }

  lemma OnlyOne(c: Claim, id: string)
    ensures Only([c], id) == if c.id == id then [c] else []
  {
    assert [c][1..] == [];
  }

  lemma {:induction false} OnlyAppend(claims: seq<Claim>, c: Claim, id: string)
    ensures Only(claims + [c], id) == Only(claims, id) + if c.id == id then [c] else []
  {
    if claims == [] {
      OnlyOne(c, id);
      assert claims + [c] == [c];
    } else {
      TailOfPush(claims, c);
      OnlyAppend(claims[1..], c, id);
      Regroup(if claims[0].id == id then [claims[0]] else [], Only(claims[1..], id), if c.id == id then [c] else []);
    }
  }

  lemma {:induction false} OnlyAfterRemove(claims: seq<Claim>, gone: string, id: string)
    ensures Only(RemoveClaim(claims, gone), id) == if gone == id then [] else Only(claims, id)
  {
    if claims != [] {
      OnlyAfterRemove(claims[1..], gone, id);
      var rest := RemoveClaim(claims[1..], gone);
      if claims[0].id != gone {
        assert ([claims[0]] + rest)[1..] == rest;
      } else {
        assert [] + rest == rest;
      }
    }
  }

  lemma {:induction false} OnlyAfterRemoves(claims: seq<Claim>, ids: seq<string>, id: string)
    ensures Only(RemoveClaims(claims, ids), id) == if id in ids then [] else Only(claims, id)
    decreases |ids|
  {
    if ids != [] {
      OnlyAfterRemove(claims, ids[0], id);
      OnlyAfterRemoves(RemoveClaim(claims, ids[0]), ids[1..], id);
      assert ids == [ids[0]] + ids[1..];
    }
  }

  lemma {:induction false} OnlyAfterExit(claims: seq<Claim>, sid: string, id: string)
    requires |Only(claims, id)| <= 1
    ensures Only(RemoveSession(claims, sid), id) ==
      if |Only(claims, id)| == 1 && Only(claims, id)[0].sid == sid then [] else Only(claims, id)
  {
    if claims != [] {
      var rest := RemoveSession(claims[1..], sid);
      assert |Only(claims[1..], id)| <= 1;
      OnlyAfterExit(claims[1..], sid, id);
      if claims[0].sid != sid {
        assert ([claims[0]] + rest)[1..] == rest;
      } else {
        assert [] + rest == rest;
      }
    }
  }

  lemma {:induction false} OnlyFirst(claims: seq<Claim>, id: string)
    ensures var i := FindClaim(claims, id);
      if i < |claims| then Only(claims, id) != [] && Only(claims, id)[0] == claims[i] else Only(claims, id) == []
  {
    if claims != [] && claims[0].id != id {
      OnlyFirst(claims[1..], id);
    }
  }

  /** Changing the first claim with an id, keeping its id. */
  lemma {:induction false} OnlyAfterUpdate(claims: seq<Claim>, at: string, c: Claim, id: string)
    requires FindClaim(claims, at) < |claims| && c.id == at
    ensures var o := Only(claims[FindClaim(claims, at) := c], id);
      if at == id then Only(claims, id) != [] && o == Only(claims, id)[0 := c] else o == Only(claims, id)
  {
    var i := FindClaim(claims, at);
    OnlyFirst(claims, at);
    if i == 0 {
      assert claims[0 := c][1..] == claims[1..];
    } else {
      assert claims[i := c][1..] == claims[1..][i - 1 := c];
      OnlyAfterUpdate(claims[1..], at, c, id);
    }
  }

  /** The claim is as the history says. */
  predicate Agrees(c: Claim, w: Watch) {
    w.sid == Some(c.sid) && c.done == w.top && c.volume == w.volume && c.started == w.first && c.total == w.length
  }

  /** The claim list agrees with the history about one claim. */
  ghost predicate Follows(claims: seq<Claim>, w: Watch, id: string) {
    var own := Only(claims, id);
    if w.sid == None then own == [] else |own| == 1 && own[0].id == id && Agrees(own[0], w)
  }

  /** The first claim with an id, when the history says it is held. */
  lemma HeldClaim(claims: seq<Claim>, w: Watch, id: string)
    requires Follows(claims, w, id)
    ensures w.sid.Some? <==> FindClaim(claims, id) < |claims|
    ensures w.sid.Some? ==> Agrees(claims[FindClaim(claims, id)], w)
  {
    OnlyFirst(claims, id);
  }

  /** Rewriting the first claim with an id, keeping its id. */
  lemma FollowsUpdate(claims: seq<Claim>, w: Watch, at: string, c: Claim, next: Watch, id: string)
    requires Follows(claims, w, id)
    requires FindClaim(claims, at) < |claims| && c.id == at
    requires if at == id then Agrees(c, next) else next == w
    ensures Follows(claims[FindClaim(claims, at) := c], next, id)
  {
    HeldClaim(claims, w, id);
    OnlyAfterUpdate(claims, at, c, id);
  }

  lemma PushedSum(a: Activity, p: string, done: nat, total: nat, at: int)
    ensures var i := FindClaim(a.claims, p);
      SumPages(Pushed(a, Step(Page(p, done, total), at)))
        == if i < |a.claims| && done > a.claims[i].done then done - a.claims[i].done else 0
  {
  }

  /** A report changes the first claim with its id, by what it reports. */
  lemma ReportClaims(a: Activity, s: Step, w: Watch) returns (c: Claim)
    requires s.what.Page? || s.what.VolumeStarted?
    requires FindClaim(a.claims, s.what.id) < |a.claims|
    ensures var i := FindClaim(a.claims, s.what.id);
      && Apply(a, s).claims == a.claims[i := c] && c.id == s.what.id
      && (Agrees(a.claims[i], w) ==> Agrees(c, WatchStep(w, s, c.id)))
  {
    c := Apply(a, s).claims[FindClaim(a.claims, s.what.id)];
  }

  lemma FollowsReport(a: Activity, s: Step, w: Watch, id: string)
    requires s.what.Page? || s.what.VolumeStarted?
    requires Follows(a.claims, w, id)
    ensures Follows(Apply(a, s).claims, WatchStep(w, s, id), id)
    ensures s.what.Page? && s.what.id == id ==> SumPages(Pushed(a, s)) == WatchStep(w, s, id).top - w.top
  {
    HeldClaim(a.claims, w, id);
    if s.what.Page? {
      PushedSum(a, s.what.id, s.what.done, s.what.total, s.at);
    }
    if FindClaim(a.claims, s.what.id) < |a.claims| {
      var c := ReportClaims(a, s, w);
      FollowsUpdate(a.claims, w, s.what.id, c, WatchStep(w, s, id), id);
    }
  }

  lemma FollowsOpen(claims: seq<Claim>, c: Claim, w: Watch, next: Watch, id: string)
    requires Follows(claims, w, id) && (if c.id == id then w == UNSEEN && Agrees(c, next) else next == w)
    ensures Follows(claims + [c], next, id)
  {
    OnlyAppend(claims, c, id);
  }

  lemma FollowsExit(claims: seq<Claim>, sid: string, w: Watch, id: string)
    requires Follows(claims, w, id)
    ensures Follows(RemoveSession(claims, sid), if w.sid == Some(sid) then w.(sid := None) else w, id)
  {
    OnlyAfterExit(claims, sid, id);
  }

  /** Every step but a page report or a start. */
  lemma FollowsRest(a: Activity, s: Step, w: Watch, id: string)
    requires !s.what.Page? && !s.what.VolumeStarted?
    requires Follows(a.claims, w, id)
    requires Opens(s, id) ==> w == UNSEEN
    ensures Follows(Apply(a, s).claims, WatchStep(w, s, id), id)
  {
    match s.what
    case Volume(sid, v, title, name) =>
      FollowsOpen(a.claims, Claim(v, sid, DisplayName(title, name), None, 0, 0), w, WatchStep(w, s, id), id);
    case VolumeDone(v, _, _, _) => OnlyAfterRemove(a.claims, v, id);
    case Failed(v) => OnlyAfterRemove(a.claims, v, id);
    case Released(ids) => OnlyAfterRemoves(a.claims, ids, id);
    case Exit(sid) => FollowsExit(a.claims, sid, w, id);
    case _ =>
  }

  lemma FollowsStep(a: Activity, s: Step, w: Watch, id: string)
    requires Follows(a.claims, w, id)
    requires Opens(s, id) ==> w == UNSEEN
    ensures Follows(Apply(a, s).claims, WatchStep(w, s, id), id)
    ensures s.what.Page? && s.what.id == id ==>
      SumPages(Pushed(a, s)) == WatchStep(w, s, id).top - w.top
    ensures !(s.what.Page? && s.what.id == id) ==> WatchStep(w, s, id).top == w.top
  {
    if s.what.Page? || s.what.VolumeStarted? {
      FollowsReport(a, s, w, id);
    } else {
      FollowsRest(a, s, w, id);
    }
  }

  lemma {:induction false} NotOpenedYet(steps: seq<Step>, id: string)
    requires forall i :: 0 <= i < |steps| ==> !Opens(steps[i], id)
    ensures Watched(steps, id) == UNSEEN
    decreases |steps|
  {
    if steps != [] {
      NotOpenedYet(steps[..|steps| - 1], id);
    }
  }

  /** Conservation of pages: over every history from an idle activity, whatever repeats or comes out of
      order, the increments pushed for a claim sum to the highest page reported while it was held; and the
      claim list holds it exactly while the history does, with what the history says of it. */
  lemma {:induction false} PagesConserved(stats: Stats, steps: seq<Step>, id: string)
    requires HandedOutOnce(steps, id)
    ensures var a := Idle(stats);
      && PushedFor(a, steps, id) == Watched(steps, id).top
      && Follows(Run(a, steps).claims, Watched(steps, id), id)
    decreases |steps|
  {
    if steps != [] {
      var n := |steps| - 1;
      var a := Idle(stats);
      PagesConserved(stats, steps[..n], id);
      if Opens(steps[n], id) {
        assert forall i :: 0 <= i < n ==> steps[..n][i] == steps[i];
        NotOpenedYet(steps[..n], id);
      }
      FollowsStep(Run(a, steps[..n]), steps[n], Watched(steps[..n], id), id);
    }
  }

  // --- sessions -------------------------------------------------------------------------

  /** The labels set last. */
  function LabelsTold(steps: seq<Step>): map<string, string> {
    if steps == [] then map[]
    else
      var n := |steps| - 1;
      if steps[n].what.SetDevices? then steps[n].what.labels else LabelsTold(steps[..n])
  }

  /** What the history alone says of a session that is open: the engine it was opened with, and the
      precision and device it was last ready with. */
  function SessionTold(steps: seq<Step>, sid: string): Option<Session> {
    if steps == [] then None
    else
      var n := |steps| - 1;
      var before := SessionTold(steps[..n], sid);
      match steps[n].what
      case OpenSession(s, engine) => if s == sid then Some(Session(Some(engine), None, None)) else before
      case Ready(s, precision, stages) =>
        if s == sid && before.Some? then
          Some(Session(before.value.engine, precision, PickDevice(stages, LabelsTold(steps[..n]))))
        else before
      case Exit(s) => if s == sid then None else before
      case Clear => None
      case _ => before
  }

  lemma SessionStep(a: Activity, s: Step, sid: string)
    ensures var b := Apply(a, s).sessions; var was := if sid in a.sessions then Some(a.sessions[sid]) else None;
      (if sid in b then Some(b[sid]) else None) ==
        match s.what
        case OpenSession(o, engine) => if o == sid then Some(Session(Some(engine), None, None)) else was
        case Ready(r, precision, stages) =>
          if r == sid && was.Some? then Some(Session(was.value.engine, precision, PickDevice(stages, a.devices)))
          else was
        case Exit(x) => if x == sid then None else was
        case Clear => None
        case _ => was
  {
  }

  /** After any history exactly the open sessions are held, each with the engine it was opened with and the
      precision and device it was last ready with. */
  lemma {:induction false} SessionsAreTold(stats: Stats, steps: seq<Step>, sid: string)
    ensures var a := Run(Idle(stats), steps);
      && a.devices == LabelsTold(steps)
      && SessionTold(steps, sid) == if sid in a.sessions then Some(a.sessions[sid]) else None
    decreases |steps|
  {
    if steps != [] {
      var n := |steps| - 1;
      SessionsAreTold(stats, steps[..n], sid);
      SessionStep(Run(Idle(stats), steps[..n]), steps[n], sid);
    }
  }

  // --- the page rate --------------------------------------------------------------------

  /** Every increment ever pushed, in order. */
  function Log(a: Activity, steps: seq<Step>): seq<Increment>
    decreases |steps|
  {
    if steps == [] then []
    else Log(a, steps[..|steps| - 1]) + Pushed(Run(a, steps[..|steps| - 1]), steps[|steps| - 1])
  }

  /** The pages pushed within the last minute before `now`. */
  function Window(log: seq<Increment>, now: int): nat {
    if log == [] then 0
    else (if now - log[0].at <= RATE_WINDOW then log[0].pages else 0) + Window(log[1..], now)
  }

  predicate InTimeOrder(log: seq<Increment>) {
    forall i, j :: 0 <= i < j < |log| ==> log[i].at <= log[j].at
  }

  /** Rate readings take the clock under the lock, so theirs never goes back. */
  ghost predicate RatesInOrder(steps: seq<Step>, now: int) {
    forall i :: 0 <= i < |steps| && steps[i].what.Rate? ==> steps[i].at <= now
  }

  lemma {:induction false} DropExpiredIsSuffix(pages: seq<Increment>, now: int) returns (n: nat)
    ensures n <= |pages| && DropExpired(pages, now) == pages[n..]
    ensures forall i :: 0 <= i < n ==> now - pages[i].at > RATE_WINDOW
    ensures n < |pages| ==> now - pages[n].at <= RATE_WINDOW
  {
    if pages != [] && now - pages[0].at > RATE_WINDOW {
      var m := DropExpiredIsSuffix(pages[1..], now);
      n := m + 1;
      assert pages[1..][m..] == pages[n..];
      assert forall i :: 1 <= i < n ==> pages[i] == pages[1..][i - 1];
    } else {
      n := 0;
      WholeTail(pages);
    }
  }

  /** `held` is the log without a front part that had expired by `now`. */
  ghost predicate RecentPart(log: seq<Increment>, n: nat, held: seq<Increment>, now: int) {
    n <= |log| && held == log[n..] && forall i :: 0 <= i < n ==> now - log[i].at > RATE_WINDOW
  }

  lemma RecentAfterPush(log: seq<Increment>, n: nat, held: seq<Increment>, more: seq<Increment>, now: int)
    requires RecentPart(log, n, held, now)
    ensures RecentPart(log + more, n, held + more, now)
  {
    assert (log + more)[n..] == log[n..] + more;
    assert forall i :: 0 <= i < n ==> (log + more)[i] == log[i];
  }

  lemma RecentAfterDrop(log: seq<Increment>, n: nat, held: seq<Increment>, at: int, now: int) returns (m: nat)
    requires RecentPart(log, n, held, now) && at <= now
    ensures RecentPart(log, m, DropExpired(held, at), now)
    ensures m < |log| ==> at - log[m].at <= RATE_WINDOW
  {
    var d := DropExpiredIsSuffix(held, at);
    m := n + d;
    assert log[n..][d..] == log[m..];
    assert forall i :: n <= i < m ==> log[i] == held[i - n];
    assert m < |log| ==> log[m] == held[d];
  }

  /** What is held is the log without a front part that no later reading could count. */
  lemma {:induction false} HeldIsRecentLog(a: Activity, steps: seq<Step>, now: int) returns (n: nat)
    requires a.pages == [] && RatesInOrder(steps, now)
    ensures RecentPart(Log(a, steps), n, Run(a, steps).pages, now)
    decreases |steps|
  {
    if steps == [] {
      n := 0;
    } else {
      var m := |steps| - 1;
      assert forall i :: 0 <= i < m ==> steps[..m][i] == steps[i];
      n := HeldIsRecentLog(a, steps[..m], now);
      n := HeldAfterStep(Log(a, steps[..m]), n, Run(a, steps[..m]), steps[m], now);
    }
  }

  lemma HeldAfterStep(log: seq<Increment>, n: nat, a: Activity, s: Step, now: int) returns (m: nat)
    requires RecentPart(log, n, a.pages, now) && (s.what.Rate? ==> s.at <= now)
    ensures RecentPart(log + Pushed(a, s), m, Apply(a, s).pages, now)
  {
    if s.what.Rate? {
      m := RecentAfterDrop(log, n, a.pages, s.at, now);
      assert log + Pushed(a, s) == log;
    } else {
      m := n;
      RecentAfterPush(log, n, a.pages, Pushed(a, s), now);
      assert !s.what.Page? ==> a.pages + Pushed(a, s) == a.pages;
      assert Apply(a, s).pages == a.pages + Pushed(a, s);
    }
  }

  lemma {:induction false} WindowSkipsExpired(log: seq<Increment>, n: nat, now: int)
    requires n <= |log| && forall i :: 0 <= i < n ==> now - log[i].at > RATE_WINDOW
    ensures Window(log, now) == Window(log[n..], now)
    decreases n
  {
    if n == 0 {
      WholeTail(log);
    } else {
      assert forall i :: 0 <= i < n - 1 ==> log[1..][i] == log[i + 1];
      WindowSkipsExpired(log[1..], n - 1, now);
      assert log[1..][n - 1..] == log[n..];
    }
  }

  predicate Fresh(inc: Increment, now: int) {
    now - inc.at <= RATE_WINDOW
  }

  predicate AllPositive(log: seq<Increment>) {
    forall i :: 0 <= i < |log| ==> log[i].pages > 0
  }

  /** The window holds no more than everything, and everything exactly when nothing is expired. */
  lemma {:induction false} WindowBound(log: seq<Increment>, now: int)
    requires AllPositive(log)
    ensures Window(log, now) <= SumPages(log)
    ensures Window(log, now) == SumPages(log) <==> forall i :: 0 <= i < |log| ==> Fresh(log[i], now)
  {
    if log != [] {
      var rest := log[1..];
      assert forall i :: 0 <= i < |rest| ==> rest[i] == log[i + 1];
      WindowBound(rest, now);
      assert (forall i :: 0 <= i < |log| ==> Fresh(log[i], now))
        <==> Fresh(log[0], now) && forall i :: 0 <= i < |rest| ==> Fresh(rest[i], now);
    }
  }

  lemma {:induction false} LogIsPositive(a: Activity, steps: seq<Step>)
    ensures AllPositive(Log(a, steps))
    decreases |steps|
  {
    if steps != [] {
      LogIsPositive(a, steps[..|steps| - 1]);
    }
  }

  /** An increment stands behind one that is fresh still, though it has expired itself. */
  ghost predicate ExpiredBehindFresh(log: seq<Increment>, now: int) {
    exists i, j :: 0 <= i < j < |log| && Fresh(log[i], now) && !Fresh(log[j], now)
  }

  /** The page rate never counts less than the last minute, and it counts exactly the last minute if and
      only if no expired increment stands behind a fresh one. (An event reads its clock before it takes
      the lock, so increments can be pushed out of time order.) */
  lemma RateCountsLastMinute(stats: Stats, steps: seq<Step>, now: int)
    requires RatesInOrder(steps, now)
    ensures var a := Idle(stats); var log := Log(a, steps);
      var count := SumPages(Apply(Run(a, steps), Step(Rate, now)).pages);
      && count >= Window(log, now)
      && (count == Window(log, now) <==> !ExpiredBehindFresh(log, now))
      && (InTimeOrder(log) ==> count == Window(log, now))
  {
    var a := Idle(stats);
    var n := HeldIsRecentLog(a, steps, now);
    LogIsPositive(a, steps);
    RateReads(Run(a, steps), now);
    RateOfRecent(Log(a, steps), n, Run(a, steps).pages, now);
  }

  lemma RateReads(a: Activity, now: int)
    ensures Apply(a, Step(Rate, now)).pages == DropExpired(a.pages, now)
  {
  }

  lemma RateOfRecent(log: seq<Increment>, n: nat, held: seq<Increment>, now: int)
    requires RecentPart(log, n, held, now) && AllPositive(log)
    ensures SumPages(DropExpired(held, now)) >= Window(log, now)
    ensures SumPages(DropExpired(held, now)) == Window(log, now) <==> !ExpiredBehindFresh(log, now)
    ensures InTimeOrder(log) ==> !ExpiredBehindFresh(log, now)
  {
    var m := RecentAfterDrop(log, n, held, now, now);
    WindowSkipsExpired(log, m, now);
    WindowBound(log[m..], now);
    FreshFromIff(log, m, now);
  }

  lemma FreshFromIff(log: seq<Increment>, m: nat, now: int)
    requires m <= |log| && forall i :: 0 <= i < m ==> !Fresh(log[i], now)
    requires m < |log| ==> Fresh(log[m], now)
    ensures (forall i :: 0 <= i < |log[m..]| ==> Fresh(log[m..][i], now)) <==> !ExpiredBehindFresh(log, now)
  {
    var rest := log[m..];
    assert forall i :: 0 <= i < |rest| ==> rest[i] == log[m + i];
    if j :| 0 <= j < |rest| && !Fresh(rest[j], now) {
      assert j != 0 && Fresh(log[m], now) && !Fresh(log[m + j], now);
    }
    if i, j :| 0 <= i < j < |log| && Fresh(log[i], now) && !Fresh(log[j], now) {
      assert i >= m && !Fresh(rest[j - m], now);
    }
  }

  /** Two page reports of one claim, the second with the clock reading from a second before. */
  function OutOfOrder(): seq<Step> {
    [Step(Volume("s", "v", "", "x"), 0)] + [Step(Page("v", 1, 0), 1)] + [Step(Page("v", 2, 0), 0)]
  }

  /** Where a history with no expired increment dropped has led. */
  ghost predicate Leads(a: Activity, steps: seq<Step>, claims: seq<Claim>, log: seq<Increment>) {
    Run(a, steps).claims == claims && Run(a, steps).pages == log && Log(a, steps) == log
  }

  /** The only claim reports more pages than before. */
  lemma OnlyClaimReports(a: Activity, steps: seq<Step>, c: Claim, log: seq<Increment>, done: nat, at: int)
    requires Leads(a, steps, [c], log) && done > c.done
    ensures Leads(a, steps + [Step(Page(c.id, done, 0), at)], [StartedAt(c, at).(done := done)],
                  log + [Increment(at, done - c.done)])
  {
    FrontOfPush(steps, Step(Page(c.id, done, 0), at));
    assert FindClaim([c], c.id) == 0;
  }

  lemma VolumeOpens(a: Activity)
    requires a.claims == [] && a.pages == []
    ensures Leads(a, [Step(Volume("s", "v", "", "x"), 0)], [Claim("v", "s", "x", None, 0, 0)], [])
  {
    FrontOfPush([], Step(Volume("s", "v", "", "x"), 0));
    assert [] + [Claim("v", "s", "x", None, 0, 0)] == [Claim("v", "s", "x", None, 0, 0)];
  }

  lemma OutOfOrderRun(a: Activity)
    requires a.claims == [] && a.pages == []
    ensures Leads(a, OutOfOrder(), [Claim("v", "s", "x", Some(1), 2, 0)], [Increment(1, 1), Increment(0, 1)])
  {
    VolumeOpens(a);
    var first := [Step(Volume("s", "v", "", "x"), 0)];
    OnlyClaimReports(a, first, Claim("v", "s", "x", None, 0, 0), [], 1, 1);
    assert [] + [Increment(1, 1)] == [Increment(1, 1)];
    OnlyClaimReports(a, first + [Step(Page("v", 1, 0), 1)], Claim("v", "s", "x", Some(1), 1, 0),
                     [Increment(1, 1)], 2, 0);
  }

  lemma OutOfOrderCounts()
    ensures var log := [Increment(1, 1), Increment(0, 1)];
      && ExpiredBehindFresh(log, 61) && DropExpired(log, 61) == log
      && SumPages(log) == 2 && Window(log, 61) == 1
  {
    var log := [Increment(1, 1), Increment(0, 1)];
    assert Fresh(log[0], 61) && !Fresh(log[1], 61);
    assert log[1..] == [Increment(0, 1)] && log[1..][1..] == [];
    assert SumPages(log[1..]) == 1 && Window(log[1..], 61) == 0;
  }

  /** Read at 61, they count 2 pages, of which only 1 is of the last minute. */
  lemma RateMayCountMore(stats: Stats)
    ensures var a := Idle(stats); var steps := OutOfOrder();
      && ExpiredBehindFresh(Log(a, steps), 61)
      && SumPages(Apply(Run(a, steps), Step(Rate, 61)).pages) == 2 && Window(Log(a, steps), 61) == 1
  {
    OutOfOrderRun(Idle(stats));
    OutOfOrderCounts();
  }

  // --- busy time and counts -------------------------------------------------------------

  datatype Tally = Tally(volumes: nat, pages: nat, seconds: real)

  const NONE := Tally(0, 0, 0.0)

  /** The counts of the current day. */
  function TallyOf(s: Stats): Tally {
    Tally(s.volumes, s.pages, s.busySeconds as real + s.busyCarry)
  }

  function AddVolume(t: Tally, pages: nat, seconds: real): Tally {
    Tally(t.volumes + 1, t.pages + pages, t.seconds + if seconds > 0.0 then seconds else 0.0)
  }

  /** What was finished on `day`, walking back from the end of the history to the last volume finished
      on another day (then to the stored counts, if they are of that day). */
  function OfDay(stats: Stats, steps: seq<Step>, day: string): Tally
    decreases |steps|
  {
    if steps == [] then
      if stats.day == day then TallyOf(stats) else NONE
    else
      var n := |steps| - 1;
      match steps[n].what
      case VolumeDone(_, pages, seconds, d) =>
        if d != day then NONE else AddVolume(OfDay(stats, steps[..n], day), pages, seconds)
      case _ => OfDay(stats, steps[..n], day)
  }

  function FinishedPages(steps: seq<Step>): nat
    decreases |steps|
  {
    if steps == [] then 0
    else
      FinishedPages(steps[..|steps| - 1])
      + if steps[|steps| - 1].what.VolumeDone? then steps[|steps| - 1].what.pages else 0
  }

  function FinishedVolumes(steps: seq<Step>): nat
    decreases |steps|
  {
    if steps == [] then 0
    else FinishedVolumes(steps[..|steps| - 1]) + if steps[|steps| - 1].what.VolumeDone? then 1 else 0
  }

  /** A day other than the one being counted has nothing in the history's last stretch. */
  lemma {:induction false} OtherDayIsEmpty(stats: Stats, steps: seq<Step>, day: string)
    requires Run(Idle(stats), steps).stats.day != day
    ensures OfDay(stats, steps, day) == NONE
    decreases |steps|
  {
    if steps != [] && !steps[|steps| - 1].what.VolumeDone? {
      OtherDayIsEmpty(stats, steps[..|steps| - 1], day);
    }
  }

  lemma CountVolumeAdds(s: Stats, pages: nat, seconds: real, day: string)
    requires 0.0 <= s.busyCarry < 1.0
    ensures var r := CountVolume(s, pages, seconds, day); var before := if s.day == day then TallyOf(s) else NONE;
      && r.day == day && 0.0 <= r.busyCarry < 1.0
      && r.totalPages == s.totalPages + pages && r.totalVolumes == s.totalVolumes + 1
      && TallyOf(r) == AddVolume(before, pages, seconds)
  {
  }

  /** Conservation of time and counts: over every history, whole busy seconds plus the carry are the
      seconds of the day's volumes (negative reports count as none), the carry stays below one second,
      and the day's and the total counts are the history's. */
  lemma {:induction false} CountsConserved(stats: Stats, steps: seq<Step>)
    requires 0.0 <= stats.busyCarry < 1.0
    ensures var s := Run(Idle(stats), steps).stats;
      && TallyOf(s) == OfDay(stats, steps, s.day)
      && 0.0 <= s.busyCarry < 1.0
      && s.totalPages == stats.totalPages + FinishedPages(steps)
      && s.totalVolumes == stats.totalVolumes + FinishedVolumes(steps)
    decreases |steps|
  {
    if steps != [] {
      var n := |steps| - 1;
      CountsConserved(stats, steps[..n]);
      var s := Run(Idle(stats), steps[..n]).stats;
      if steps[n].what.VolumeDone? {
        var day := steps[n].what.day;
        CountVolumeAdds(s, steps[n].what.pages, steps[n].what.seconds, day);
        if s.day != day {
          OtherDayIsEmpty(stats, steps[..n], day);
        }
        assert OfDay(stats, steps, day) ==
          AddVolume(OfDay(stats, steps[..n], day), steps[n].what.pages, steps[n].what.seconds);
      } else {
        NotFinished(Run(Idle(stats), steps[..n]), steps[n]);
        assert OfDay(stats, steps, s.day) == OfDay(stats, steps[..n], s.day);
      }
    }
  }

  lemma NotFinished(a: Activity, s: Step)
    requires !s.what.VolumeDone?
    ensures Apply(a, s).stats == a.stats
  {
  }
}
