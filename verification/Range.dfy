/**
 The `Range` header of a request for a file (sections 14.1.2 and 14.2 of RFC 9110): one range is
 answered, the hull of the satisfiable ones.
 */
module Range {
  import opened Sequences
  import opened Text

  const U64_MAX: nat := 0xFFFF_FFFF_FFFF_FFFF

  datatype Outcome = Full | Partial(start: nat, end: nat) | Unsatisfiable

  /** A range spec: `first-last`, `first-`, `-length`, or nothing that can be read as one. */
  datatype Spec = Between(first: nat, last: nat) | From(first: nat) | Suffix(length: nat) | Unreadable

  function ReadSpec(text: string): (r: Spec)
    ensures r.Between? ==> r.first <= r.last
  {
    match SplitOnce(Trim(text), '-')
    case None => Unreadable
    case Some((before, after)) =>
      var a, b := Trim(before), Trim(after);
      if a == "" then
        match ParseUnsigned(b, U64_MAX)
        case Some(n) => Suffix(n)
        case None => Unreadable
      else
        match ParseUnsigned(a, U64_MAX)
        case None => Unreadable
        case Some(first) =>
          if b == "" then From(first)
          else
            match ParseUnsigned(b, U64_MAX)
            case Some(last) => if first <= last then Between(first, last) else Unreadable
            case None => Unreadable
  }

  /** Byte `p` is asked for, when the file has `size` bytes. */
  predicate Selects(spec: Spec, size: nat, p: nat) {
    p < size &&
    match spec
    case Between(first, last) => first <= p <= last
    case From(first) => first <= p
    case Suffix(length) => size <= p + length
    case Unreadable => false
  }

  predicate IsBytesUnit(unit: string) {
    EqIgnoreAsciiCase(Trim(unit), "bytes")
  }

  /** The value names the `bytes` unit. */
  predicate AsksBytes(value: string) {
    var parts := SplitOnce(value, '=');
    parts.Some? && IsBytesUnit(parts.value.0)
  }

  function Specs(value: string): seq<string>
    requires AsksBytes(value)
  {
    Split(SplitOnce(value, '=').value.1, ',')
  }

  /** Some spec of the value asks for byte `p`. */
  ghost predicate Asked(specs: seq<string>, size: nat, p: nat) {
    exists i :: 0 <= i < |specs| && Selects(ReadSpec(specs[i]), size, p)
  }

  lemma AskedMore(specs: seq<string>, spec: string, size: nat)
    ensures forall p: nat ::
      Asked(specs + [spec], size, p) <==> Asked(specs, size, p) || Selects(ReadSpec(spec), size, p)
  {
    var all := specs + [spec];
    forall p: nat ensures Asked(all, size, p) <==> Asked(specs, size, p) || Selects(ReadSpec(spec), size, p) {
      if Asked(specs, size, p) {
        var i :| 0 <= i < |specs| && Selects(ReadSpec(specs[i]), size, p);
        assert all[i] == specs[i];
      }
      if Selects(ReadSpec(spec), size, p) {
        assert all[|specs|] == spec;
      }
    }
  }

  datatype Bounds = Bounds(start: nat, end: nat)

  /** The bytes one spec asks for, as an inclusive range, if there are any. */
  function Satisfiable(spec: Spec, size: nat): (r: Option<Bounds>)
    requires spec.Between? ==> spec.first <= spec.last
    ensures r.Some? ==> r.value.start <= r.value.end < size
  {
    match spec
    case Suffix(n) =>
      if n == 0 || size == 0 then None
      else Some(Bounds(if n <= size then size - n else 0, size - 1))
    case From(first) => if first >= size then None else Some(Bounds(first, size - 1))
    case Between(first, last) =>
      if first >= size then None else Some(Bounds(first, if last <= size - 1 then last else size - 1))
    case Unreadable => None
  }

  /** The range holds exactly the bytes the spec asks for. */
  lemma SatisfiableSelects(spec: Spec, size: nat, p: nat)
    requires spec.Between? ==> spec.first <= spec.last
    ensures var r := Satisfiable(spec, size);
      Selects(spec, size, p) <==> r.Some? && r.value.start <= p <= r.value.end
  {
  }

  /** Some range holds byte `p`. */
  ghost predicate Covered(ranges: seq<Bounds>, p: nat) {
    exists k :: 0 <= k < |ranges| && ranges[k].start <= p <= ranges[k].end
  }

  lemma CoveredMore(ranges: seq<Bounds>, r: Bounds)
    ensures forall p: nat :: Covered(ranges + [r], p) <==> Covered(ranges, p) || r.start <= p <= r.end
  {
    var all := ranges + [r];
    assert all[|ranges|] == r;
    assert forall k :: 0 <= k < |ranges| ==> all[k] == ranges[k];
    forall p: nat ensures Covered(all, p) <==> Covered(ranges, p) || r.start <= p <= r.end {
      if Covered(ranges, p) {
        var k :| 0 <= k < |ranges| && ranges[k].start <= p <= ranges[k].end;
        assert all[k].start <= p <= all[k].end;
      }
    }
  }

  /** The ranges are within the file and hold exactly the bytes the specs ask for. */
  ghost predicate Gathered(ranges: seq<Bounds>, specs: seq<string>, size: nat) {
    && (forall k :: 0 <= k < |ranges| ==> ranges[k].start <= ranges[k].end < size)
    && (forall p: nat :: Covered(ranges, p) <==> Asked(specs, size, p))
  }

  function Push(ranges: seq<Bounds>, found: Option<Bounds>): seq<Bounds> {
    if found.Some? then ranges + [found.value] else ranges
  }

  lemma GatherOne(ranges: seq<Bounds>, specs: seq<string>, spec: string, size: nat)
    requires Gathered(ranges, specs, size)
    ensures Gathered(Push(ranges, Satisfiable(ReadSpec(spec), size)), specs + [spec], size)
  {
    AskedMore(specs, spec, size);
    var found := Satisfiable(ReadSpec(spec), size);
    forall p: nat ensures Selects(ReadSpec(spec), size, p) <==>
      found.Some? && found.value.start <= p <= found.value.end {
      SatisfiableSelects(ReadSpec(spec), size, p);
    }
    if found.Some? {
      CoveredMore(ranges, found.value);
    }
  }

  /** The satisfiable ranges, pushed spec by spec. */
  method SatisfiableRanges(specs: seq<string>, size: nat) returns (ranges: seq<Bounds>)
    ensures Gathered(ranges, specs, size)
  {
    ranges := [];
    var i := 0;
    while i < |specs|
      invariant 0 <= i <= |specs|
      invariant Gathered(ranges, specs[..i], size)
    {
      NextPrefix(specs, i);
      GatherOne(ranges, specs[..i], specs[i], size);
      ranges := Push(ranges, Satisfiable(ReadSpec(specs[i]), size));
      i := i + 1;
    }
    WholePrefix(specs);
  }

  /** The smallest start and the largest end. */
  method Hull(ranges: seq<Bounds>) returns (start: nat, end: nat)
    requires ranges != []
    requires forall k :: 0 <= k < |ranges| ==> ranges[k].start <= ranges[k].end
    ensures Covered(ranges, start) && Covered(ranges, end)
    ensures forall p: nat :: Covered(ranges, p) ==> start <= p <= end
  {
    start, end := ranges[0].start, ranges[0].end;
    ghost var a, b := 0, 0;
    for i := 1 to |ranges|
      invariant 0 <= a < i && ranges[a].start == start && 0 <= b < i && ranges[b].end == end
      invariant forall k :: 0 <= k < i ==> start <= ranges[k].start && ranges[k].end <= end
    {
      if ranges[i].start < start {
        start, a := ranges[i].start, i;
      }
      if ranges[i].end > end {
        end, b := ranges[i].end, i;
      }
    }
  }

  /** `parse_range`. A partial answer runs from the first to the last byte any spec asks for; a
      `bytes` range is refused exactly when no spec asks for any byte of the file. */
  method ParseRange(value: string, size: nat) returns (r: Outcome)
    ensures r == Full <==> !AsksBytes(value)
    ensures r == Unsatisfiable ==> forall p: nat :: !Asked(Specs(value), size, p)
    ensures r.Partial? ==>
      && r.start <= r.end < size
      && Asked(Specs(value), size, r.start) && Asked(Specs(value), size, r.end)
      && forall p: nat :: Asked(Specs(value), size, p) ==> r.start <= p <= r.end
  {
    var parts := SplitOnce(value, '=');
    if parts.None? || !IsBytesUnit(parts.value.0) {
      return Full;
    }
    var specs := Split(parts.value.1, ',');
    var ranges := SatisfiableRanges(specs, size);
    if ranges == [] {
      return Unsatisfiable;
    }
    var start, end := Hull(ranges);
    assert Covered(ranges, ranges[0].start);
    r := Partial(start, end);
    assert Asked(specs, size, start) && Asked(specs, size, end);
  }

  // --- ranges as written ----------------------------------------------------------------

  /** A range as a client writes it. */
  function Print(spec: Spec): string {
    match spec
    case Between(first, last) => Decimal(first) + ['-'] + Decimal(last)
    case From(first) => Decimal(first) + ['-'] + ""
    case Suffix(length) => "" + ['-'] + Decimal(length)
    case Unreadable => ""
  }

  /** Its numbers have 64 bits, and a first byte is not behind the last one. */
  predicate Printable(spec: Spec) {
    match spec
    case Between(first, last) => first <= last <= U64_MAX
    case From(first) => first <= U64_MAX
    case Suffix(length) => length <= U64_MAX
    case Unreadable => false
  }

  lemma NumeralParts(n: nat)
    requires n <= U64_MAX
    ensures var s := Decimal(n);
      Trim(s) == s && s != "" && ParseUnsigned(s, U64_MAX) == Some(n) && '-' !in s && ',' !in s
    ensures Trim("") == ""
  {
    var s := Decimal(n);
    assert IsDigit(s[0]) && IsDigit(s[|s| - 1]);
    TrimByKeeps(s, IsSpace);
    ParseDecimal(n, U64_MAX);
    assert forall i :: 0 <= i < |s| ==> IsDigit(s[i]);
  }

  lemma DashSplits(a: string, b: string)
    requires '-' !in a && (a != "" ==> IsDigit(a[0])) && (b != "" ==> IsDigit(b[|b| - 1]))
    ensures var text := a + ['-'] + b; Trim(text) == text && SplitOnce(text, '-') == Some((a, b))
  {
    var text := a + ['-'] + b;
    TrimByKeeps(text, IsSpace);
    IndexOfAt(a, '-', b);
    assert text[..|a|] == a && text[|a| + 1..] == b;
  }

  lemma FromDash(a: string, b: string)
    requires '-' !in a && (a != "" ==> IsDigit(a[0])) && (b != "" ==> IsDigit(b[|b| - 1]))
    requires Trim(a) == a && Trim(b) == b
    ensures ReadSpec(a + ['-'] + b) ==
      if a == "" then
        match ParseUnsigned(b, U64_MAX)
        case Some(n) => Suffix(n)
        case None => Unreadable
      else
        match ParseUnsigned(a, U64_MAX)
        case None => Unreadable
        case Some(first) =>
          if b == "" then From(first)
          else
            match ParseUnsigned(b, U64_MAX)
            case Some(last) => if first <= last then Between(first, last) else Unreadable
            case None => Unreadable
  {
    DashSplits(a, b);
  }

  lemma DigitsEnds(n: nat)
    ensures IsDigit(Decimal(n)[0]) && IsDigit(Decimal(n)[|Decimal(n)| - 1])
  {
  }

  /** Each way of writing a range is read as what it says. */
  lemma PrintedReads(spec: Spec)
    requires Printable(spec)
    ensures ReadSpec(Print(spec)) == spec && ',' !in Print(spec)
  {
    match spec
    case Between(first, last) =>
      NumeralParts(first);
      NumeralParts(last);
      DigitsEnds(first);
      DigitsEnds(last);
      FromDash(Decimal(first), Decimal(last));
    case From(first) =>
      NumeralParts(first);
      DigitsEnds(first);
      FromDash(Decimal(first), "");
    case Suffix(length) =>
      NumeralParts(length);
      DigitsEnds(length);
      FromDash("", Decimal(length));
  }

  /** What one written range asks for, in numbers; `first > last` asks for nothing. */
  lemma OneRangeAsks(m: nat, n: nat, size: nat, p: nat)
    requires m <= U64_MAX && n <= U64_MAX
    ensures Selects(ReadSpec(Decimal(m) + ['-'] + Decimal(n)), size, p) <==> p < size && m <= p <= n
    ensures Selects(ReadSpec(Decimal(m) + ['-'] + ""), size, p) <==> m <= p < size
    ensures Selects(ReadSpec("" + ['-'] + Decimal(n)), size, p) <==> p < size && size - p <= n
  {
    NumeralParts(m);
    NumeralParts(n);
    DigitsEnds(m);
    DigitsEnds(n);
    FromDash(Decimal(m), Decimal(n));
    PrintedReads(From(m));
    PrintedReads(Suffix(n));
  }

  function PrintAll(specs: seq<Spec>): (r: seq<string>)
    ensures |r| == |specs| && forall i :: 0 <= i < |specs| ==> r[i] == Print(specs[i])
  {
    seq(|specs|, i requires 0 <= i < |specs| => Print(specs[i]))
  }

  function Header(specs: seq<Spec>): string {
    "bytes" + ['='] + Glue(PrintAll(specs), ',')
  }

  lemma BytesUnit()
    ensures IsBytesUnit("bytes") && '=' !in "bytes"
  {
    TrimByKeeps("bytes", IsSpace);
  }

  lemma UnitSplits(unit: string, rest: string)
    requires '=' !in unit
    ensures SplitOnce(unit + ['='] + rest, '=') == Some((unit, rest))
  {
    var value := unit + ['='] + rest;
    IndexOfAt(unit, '=', rest);
    assert value[..|unit|] == unit && value[|unit| + 1..] == rest;
  }

  /** A written header asks for exactly the bytes its ranges say. */
  lemma HeaderAsks(specs: seq<Spec>, size: nat, p: nat)
    requires specs != [] && forall i :: 0 <= i < |specs| ==> Printable(specs[i])
    ensures AsksBytes(Header(specs))
    ensures Asked(Specs(Header(specs)), size, p) <==> exists i :: 0 <= i < |specs| && Selects(specs[i], size, p)
  {
    var printed := PrintAll(specs);
    BytesUnit();
    UnitSplits("bytes", Glue(printed, ','));
    forall i | 0 <= i < |specs| ensures ReadSpec(printed[i]) == specs[i] && ',' !in printed[i] {
      PrintedReads(specs[i]);
    }
    SplitGlue(printed, ',');
    assert Specs(Header(specs)) == printed;
    if i :| 0 <= i < |specs| && Selects(specs[i], size, p) {
      assert Selects(ReadSpec(printed[i]), size, p);
    }
  }
}
