/**
 Names and ids of generation rows: which names are acceptable, and how a row without one gets a name
 or an id of its own.
 */
module Naming {
  import opened Sequences
  import opened Sets
  import opened Text
  import opened Engines

  const MAX_NAME := 32
  /** The counter of a seeded name is a signed 32-bit integer. */
  const MAX_COUNTER := 2147483647
  /** The number of an id is an unsigned 64-bit integer. */
  const MAX_NUMBER := 18446744073709551615

  const RESERVED_NAMES := ["original", "gcv", "updated-ocr"]
  const RESERVED_PREFIX := "tr-"

  // --- names ----------------------------------------------------------------------------

  predicate IsLower(c: char) {
    'a' <= c <= 'z'
  }

  predicate IsNameChar(c: char) {
    IsLower(c) || IsDigit(c) || c == '-'
  }

  predicate AllNameChars(s: string) {
    forall i :: 0 <= i < |s| ==> IsNameChar(s[i])
  }

  predicate NameAccepted(name: string) {
    && name != ""
    && (IsLower(name[0]) || IsDigit(name[0]))
    && |name| <= MAX_NAME
    && AllNameChars(name)
    && name !in RESERVED_NAMES
    && !(RESERVED_PREFIX <= name)
  }

  predicate IsDash(c: char) {
    c == '-'
  }

  function Take(s: string, n: nat): string {
    if |s| <= n then s else s[..n]
  }

  function TrimName(stem: string): string {
    TrimEndBy(Take(stem, MAX_NAME), IsDash)
  }

  function Stem(engine: string, detector: Option<string>): string {
    var own := FindEngine(engine).Some? && FindEngine(engine).value.detector.Some?;
    TrimName(if detector.Some? && !own && detector.value != "" then engine + "-" + detector.value else engine)
  }

  function Tail(counter: nat): string {
    "-" + Decimal(counter)
  }

  /** What a candidate keeps of the stem. */
  function Front(stem: string, counter: nat): string {
    TrimName(Take(stem, if |Tail(counter)| < MAX_NAME then MAX_NAME - |Tail(counter)| else 0))
  }

  /** The name tried at a counter. */
  function Candidate(stem: string, counter: nat): string {
    if counter <= 1 then stem
    else
      Front(stem, counter) + Tail(counter)
  }

  function SeedFrom(stem: string, taken: seq<string>, counter: nat): (name: Option<string>)
    requires 1 <= counter <= MAX_COUNTER
    ensures name.Some? ==> name.value !in taken && NameAccepted(name.value)
    decreases MAX_COUNTER - counter
  {
    var c := Candidate(stem, counter);
    if c !in taken && NameAccepted(c) then Some(c)
    else if counter == MAX_COUNTER then None
    else SeedFrom(stem, taken, counter + 1)
  }

  /** The stem of a name: the engine, with the detector behind a dash for an engine without its own. */
  lemma StemIs(engine: string)
    requires engine in [HAYAI_NOVA.id, PADDLE_MANGA.id, PPOCR_MANGA.id]
    ensures Stem(engine, None) == engine
    ensures Stem(engine, Some("ppocr-manga")) ==
      if engine == "ppocr-manga" then "ppocr-manga" else engine + "-ppocr-manga"
  {
    assert engine[|engine| - 1] == 'a';
    var long := engine + "-ppocr-manga";
    assert |long| <= MAX_NAME && long[|long| - 1] == 'a';
  }

  /** The first candidate that is free and acceptable, or none when the counter would overflow first. */
  function SeedName(engine: string, detector: Option<string>, taken: seq<string>): (name: Option<string>)
    ensures name.Some? ==> name.value !in taken && NameAccepted(name.value)
  {
    SeedFrom(Stem(engine, detector), taken, 1)
  }

  method SeedGenerationName(engine: string, detector: Option<string>, taken: seq<string>) returns (name: Option<string>)
    ensures name == SeedName(engine, detector, taken)
  {
    var stem := Stem(engine, detector);
    var candidate := stem;
    var counter := 1;
    while candidate in taken || !NameAccepted(candidate)
      invariant 1 <= counter <= MAX_COUNTER && candidate == Candidate(stem, counter)
      invariant SeedFrom(stem, taken, counter) == SeedName(engine, detector, taken)
      decreases MAX_COUNTER - counter
    {
      if counter == MAX_COUNTER {
        return None;
      }
      counter := counter + 1;
      var tail := "-" + Decimal(counter);
      var room := if |tail| < MAX_NAME then MAX_NAME - |tail| else 0;
      candidate := TrimName(Take(stem, room)) + tail;
    }
    name := Some(candidate);
  }

  /** A stem whose candidates are all names: it starts like an engine id and does not end in a digit. */
  predicate Seedable(stem: string) {
    && stem != "" && stem[0] in {'h', 'p'} && |stem| <= MAX_NAME
    && AllNameChars(stem) && !IsDigit(stem[|stem| - 1])
  }

  lemma SmallTail(counter: nat)
    requires counter <= MAX_COUNTER
    ensures 2 <= |Tail(counter)| <= 11
  {
    assert Pow10(10) == 10000000000 by {
      assert Pow10(5) == 100000;
      assert Pow10(10) == 100000 * Pow10(5);
    }
    DecimalLength(counter, 10);
  }

  lemma {:induction false} TrimDashesKeepsFront(s: string)
    requires s != "" && s[0] != '-'
    ensures TrimEndBy(s, IsDash) != "" && TrimEndBy(s, IsDash) <= s
    decreases |s|
  {
    if IsDash(s[|s| - 1]) {
      TrimDashesKeepsFront(s[..|s| - 1]);
    }
  }

  /** Every candidate of an engine's stem is an acceptable name, however long the counter. */
  lemma CandidateAccepted(stem: string, counter: nat)
    requires Seedable(stem) && 1 <= counter <= MAX_COUNTER
    ensures NameAccepted(Candidate(stem, counter))
  {
    if counter > 1 {
      SmallTail(counter);
      TailChars(counter);
      FrontChars(stem, MAX_NAME - |Tail(counter)|);
    }
    NotReserved(Candidate(stem, counter));
  }

  /** A name with a counter: the most of the stem that fits in 32 characters, without dashes at its end,
      then a dash and the counter. A stem that fits stays whole, but for dashes at its end. */
  lemma CandidateForm(stem: string, counter: nat)
    requires Seedable(stem) && 2 <= counter <= MAX_COUNTER
    ensures var room := MAX_NAME - 1 - |Decimal(counter)|; var front := Front(stem, counter);
      && Candidate(stem, counter) == front + ("-" + Decimal(counter))
      && front <= stem && front != "" && front[|front| - 1] != '-' && |front| <= room
      && (forall i :: |front| <= i < |stem| && i < room ==> stem[i] == '-')
      && (|stem| <= room && stem[|stem| - 1] != '-' ==> front == stem)
    ensures Candidate(stem, 1) == stem
  {
    SmallTail(counter);
    var room := MAX_NAME - |Tail(counter)|;
    var part := Take(stem, room);
    assert Front(stem, counter) == TrimEndBy(part, IsDash);
    TrimDashesKeepsFront(part);
    TrimEndByEnds(part, IsDash);
    TrimEndByOnly(part, IsDash);
    if |stem| <= room {
      assert part == stem;
    }
  }

  lemma TailChars(counter: nat)
    ensures AllNameChars(Tail(counter))
  {
    var tail := Tail(counter);
    assert forall i :: 1 <= i < |tail| ==> tail[i] == Decimal(counter)[i - 1];
  }

  lemma FrontChars(stem: string, room: nat)
    requires Seedable(stem) && 1 <= room
    ensures var front := TrimName(Take(stem, room));
      front != "" && front[0] == stem[0] && |front| <= room && AllNameChars(front)
  {
    TrimDashesKeepsFront(Take(Take(stem, room), MAX_NAME));
  }

  lemma NotReserved(c: string)
    requires c != "" && c[0] in {'h', 'p'}
    ensures c !in RESERVED_NAMES && !(RESERVED_PREFIX <= c)
  {
    assert RESERVED_NAMES[0][0] == 'o' && RESERVED_NAMES[1][0] == 'g' && RESERVED_NAMES[2][0] == 'u';
    assert RESERVED_PREFIX[0] == 't';
  }

  /** Distinct counters give distinct names, whatever truncation and dash trimming do to the stem. */
  lemma CandidatesDistinct(stem: string, m: nat, n: nat)
    requires Seedable(stem) && 1 <= m < n <= MAX_COUNTER
    ensures Candidate(stem, m) != Candidate(stem, n)
  {
    DigitRunAfter(Front(stem, n), '-', Decimal(n));
    if m > 1 && Candidate(stem, m) == Candidate(stem, n) {
      NumeralReadsBack(Front(stem, m), m, Front(stem, n), n, '-');
    }
  }

  function Tried(stem: string, counter: nat): set<string> {
    if counter <= 1 then {} else Tried(stem, counter - 1) + {Candidate(stem, counter - 1)}
  }

  lemma {:induction false} TriedSize(stem: string, counter: nat)
    requires Seedable(stem) && 1 <= counter <= MAX_COUNTER
    ensures |Tried(stem, counter)| == counter - 1
    ensures forall j :: counter <= j <= MAX_COUNTER ==> Candidate(stem, j) !in Tried(stem, counter)
  {
    if counter > 1 {
      TriedSize(stem, counter - 1);
      forall j | counter <= j <= MAX_COUNTER ensures Candidate(stem, j) != Candidate(stem, counter - 1) {
        CandidatesDistinct(stem, counter - 1, j);
      }
    }
  }

  /** The candidates from one counter up to another are taken names. */
  predicate AllTaken(stem: string, taken: seq<string>, from: nat, to: nat)
    decreases to - from
  {
    from < to ==> Candidate(stem, from) in taken && AllTaken(stem, taken, from + 1, to)
  }

  /** Pigeonhole: the candidates already tried are as many distinct taken names, so the search ends
      after no more steps than there are taken names. */
  lemma {:induction false} SeedFindsFree(stem: string, taken: seq<string>, counter: nat) returns (k: nat)
    requires Seedable(stem) && 1 <= counter <= MAX_COUNTER && |taken| < MAX_COUNTER
    requires Tried(stem, counter) <= Elements(taken)
    ensures counter <= k <= |taken| + 1
    ensures SeedFrom(stem, taken, counter) == Some(Candidate(stem, k))
    ensures AllTaken(stem, taken, counter, k)
    decreases MAX_COUNTER - counter
  {
    SeedStep(stem, taken, counter);
    if Candidate(stem, counter) !in taken {
      TriedBound(stem, taken, counter);
      k := counter;
    } else {
      NextTried(stem, taken, counter);
      k := SeedFindsFree(stem, taken, counter + 1);
    }
  }

  lemma TriedBound(stem: string, taken: seq<string>, counter: nat)
    requires Seedable(stem) && 1 <= counter <= MAX_COUNTER
    requires Tried(stem, counter) <= Elements(taken)
    ensures counter - 1 <= |taken|
  {
    TriedSize(stem, counter);
    DistinctBySize(taken);
    SubsetSize(Tried(stem, counter), Elements(taken));
  }

  lemma SeedStep(stem: string, taken: seq<string>, counter: nat)
    requires Seedable(stem) && 1 <= counter <= MAX_COUNTER
    ensures SeedFrom(stem, taken, counter) ==
      if Candidate(stem, counter) !in taken then Some(Candidate(stem, counter))
      else if counter == MAX_COUNTER then None
      else SeedFrom(stem, taken, counter + 1)
  {
    CandidateAccepted(stem, counter);
  }

  /** A refused candidate leaves room for another. */
  lemma NextTried(stem: string, taken: seq<string>, counter: nat)
    requires Seedable(stem) && 1 <= counter <= MAX_COUNTER && |taken| < MAX_COUNTER
    requires Tried(stem, counter) <= Elements(taken) && Candidate(stem, counter) in taken
    ensures counter < MAX_COUNTER && Tried(stem, counter + 1) <= Elements(taken)
  {
    TriedSize(stem, counter);
    DistinctBySize(taken);
    SubsetSize(Tried(stem, counter) + {Candidate(stem, counter)}, Elements(taken));
  }

  lemma ShortStem(s: string)
    requires s != "" && s[0] in {'h', 'p'} && |s| <= MAX_NAME && AllNameChars(s)
    requires s[|s| - 1] == 'a'
    ensures TrimName(s) == s && Seedable(s)
  {
  }

  lemma EngineStems(engine: string, detector: Option<string>)
    requires FindEngine(engine).Some? && (detector.None? || detector.value == DEFAULT_DETECTOR)
    ensures Seedable(Stem(engine, detector))
  {
    assert AllNameChars(HAYAI_NOVA.id) && AllNameChars(PADDLE_MANGA.id) && AllNameChars(PPOCR_MANGA.id);
    var own := FindEngine(engine).value.detector.Some?;
    var s := if detector.Some? && !own then engine + "-" + DEFAULT_DETECTOR else engine;
    assert AllNameChars(engine + "-" + DEFAULT_DETECTOR);
    ShortStem(s);
    assert Stem(engine, detector) == s;
  }

  /** Seeding ends with the first free candidate, a fresh acceptable name, for every known engine and
      any set of taken names that a 32-bit counter can outnumber. */
  lemma SeedingSucceeds(engine: string, detector: Option<string>, taken: seq<string>) returns (k: nat)
    requires FindEngine(engine).Some? && (detector.None? || detector.value == DEFAULT_DETECTOR)
    requires |taken| < MAX_COUNTER
    ensures 1 <= k <= |taken| + 1
    ensures var name := Candidate(Stem(engine, detector), k);
      SeedName(engine, detector, taken) == Some(name) && name !in taken && NameAccepted(name)
    ensures AllTaken(Stem(engine, detector), taken, 1, k)
  {
    EngineStems(engine, detector);
    k := SeedFindsFree(Stem(engine, detector), taken, 1);
  }

  lemma {:induction false} SeedNoneIff(stem: string, taken: seq<string>, counter: nat)
    requires Seedable(stem) && 1 <= counter <= MAX_COUNTER
    ensures SeedFrom(stem, taken, counter) == None <==> AllTaken(stem, taken, counter, MAX_COUNTER + 1)
    decreases MAX_COUNTER - counter
  {
    SeedStep(stem, taken, counter);
    TakenStep(stem, taken, counter);
    if Candidate(stem, counter) in taken && counter < MAX_COUNTER {
      SeedNoneIff(stem, taken, counter + 1);
    }
  }

  lemma TakenStep(stem: string, taken: seq<string>, counter: nat)
    requires counter <= MAX_COUNTER
    ensures AllTaken(stem, taken, counter, MAX_COUNTER + 1) <==>
      && Candidate(stem, counter) in taken
      && (counter < MAX_COUNTER ==> AllTaken(stem, taken, counter + 1, MAX_COUNTER + 1))
  {
  }

  /** The counter overflows exactly when every name it can count is taken. */
  lemma SeedingFailsIff(engine: string, detector: Option<string>, taken: seq<string>)
    requires FindEngine(engine).Some? && (detector.None? || detector.value == DEFAULT_DETECTOR)
    ensures SeedName(engine, detector, taken) == None <==> AllTaken(Stem(engine, detector), taken, 1, MAX_COUNTER + 1)
  {
    EngineStems(engine, detector);
    SeedNoneIff(Stem(engine, detector), taken, 1);
  }

  // --- ids ------------------------------------------------------------------------------

  predicate IsAlphanumeric(c: char) {
    IsDigit(c) || 'a' <= c <= 'z' || 'A' <= c <= 'Z'
  }

  predicate IsValidId(s: string) {
    && s != "" && IsAlphanumeric(s[0]) && |s| <= 32
    && forall i :: 0 <= i < |s| ==> IsAlphanumeric(s[i]) || s[i] == '_' || s[i] == '-'
  }

  function NumberedId(n: nat): string {
    "g-" + Decimal(n)
  }

  function IdNumber(id: string): Option<nat> {
    if "g-" <= id then ParseUnsigned(id[2..], MAX_NUMBER) else None
  }

  /** The largest number of an id, 0 when there is none. */
  function Highest(taken: seq<string>): (h: nat)
    ensures h <= MAX_NUMBER
    ensures forall i :: 0 <= i < |taken| && IdNumber(taken[i]).Some? ==> IdNumber(taken[i]).value <= h
  {
    if taken == [] then 0
    else
      var n := |taken| - 1;
      var h := Highest(taken[..n]);
      match IdNumber(taken[n])
      case Some(m) => if m > h then m else h
      case None => h
  }

  function MintFrom(taken: seq<string>, highest: nat): Option<string>
    requires highest <= MAX_NUMBER
    decreases MAX_NUMBER - highest
  {
    if highest == MAX_NUMBER then None
    else if NumberedId(highest + 1) !in taken then Some(NumberedId(highest + 1))
    else MintFrom(taken, highest + 1)
  }

  /** The highest number is one of the ids', or 0 when none has one. */
  lemma {:induction false} HighestIsThere(taken: seq<string>)
    ensures Highest(taken) == 0 || exists i :: 0 <= i < |taken| && IdNumber(taken[i]) == Some(Highest(taken))
    decreases |taken|
  {
    if taken != [] {
      var n := |taken| - 1;
      HighestIsThere(taken[..n]);
      if i :| 0 <= i < n && IdNumber(taken[..n][i]) == Some(Highest(taken[..n])) {
        assert IdNumber(taken[i]) == Some(Highest(taken[..n]));
      }
      assert IdNumber(taken[n]) == Some(Highest(taken)) || Highest(taken) == Highest(taken[..n]);
    }
  }

  /** The next free id, or none when its number would overflow. */
  function MintId(taken: seq<string>): Option<string> {
    MintFrom(taken, Highest(taken))
  }

  method MintGenerationId(taken: seq<string>) returns (id: Option<string>)
    ensures id == MintId(taken)
  {
    var highest := 0;
    for i := 0 to |taken|
      invariant highest == Highest(taken[..i])
    {
      assert taken[..i + 1][..i] == taken[..i];
      var n := IdNumber(taken[i]);
      if n.Some? && n.value > highest {
        highest := n.value;
      }
    }
    WholePrefix(taken);
    while highest < MAX_NUMBER
      invariant highest <= MAX_NUMBER && MintFrom(taken, highest) == MintId(taken)
      decreases MAX_NUMBER - highest
    {
      if NumberedId(highest + 1) !in taken {
        return Some(NumberedId(highest + 1));
      }
      highest := highest + 1;
    }
    id := None;
  }

  lemma NumberReadsBack(n: nat)
    requires n <= MAX_NUMBER
    ensures IdNumber(NumberedId(n)) == Some(n) && IsValidId(NumberedId(n))
  {
    ParseDecimal(n, MAX_NUMBER);
    assert NumberedId(n)[2..] == Decimal(n);
    assert Pow10(20) == 100000000000000000000 by {
      assert Pow10(5) == 100000;
      assert Pow10(10) == 100000 * Pow10(5);
      assert Pow10(15) == 100000 * Pow10(10);
      assert Pow10(20) == 100000 * Pow10(15);
    }
    DecimalLength(n, 20);
    var s := NumberedId(n);
    assert forall i :: 2 <= i < |s| ==> s[i] == Decimal(n)[i - 2];
  }

  /** An id is minted unless the highest number is the last one; it is the successor of the highest
      number (the search never has to go further), so it is fresh and valid. */
  lemma MintIsNext(taken: seq<string>)
    ensures MintId(taken) == if Highest(taken) == MAX_NUMBER then None else Some(NumberedId(Highest(taken) + 1))
    ensures MintId(taken).Some? ==> MintId(taken).value !in taken && IsValidId(MintId(taken).value)
  {
    if Highest(taken) < MAX_NUMBER {
      NumberReadsBack(Highest(taken) + 1);
    }
  }
}
