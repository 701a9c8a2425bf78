/**
 The string operations the other modules are written in: trimming, splitting, searching and
 decimal numerals, with the laws about them that the round trips rest on.
 */
module Text {

  datatype Option<+T> = None | Some(value: T)

  // --- trimming -------------------------------------------------------------------------

  /** Unicode `White_Space`, what `str::trim` and `split_whitespace` go by. */
  predicate IsSpace(c: char) {
    var n := c as int;
    || 0x09 <= n <= 0x0D || n == 0x20 || n == 0x85 || n == 0xA0 || n == 0x1680
    || 0x2000 <= n <= 0x200A || n == 0x2028 || n == 0x2029 || n == 0x202F
    || n == 0x205F || n == 0x3000
  }

  function TrimStartBy(s: string, drop: char -> bool): string {
    if s != [] && drop(s[0]) then TrimStartBy(s[1..], drop) else s
  }

  function TrimEndBy(s: string, drop: char -> bool): string {
    if s != [] && drop(s[|s| - 1]) then TrimEndBy(s[..|s| - 1], drop) else s
  }

  function TrimBy(s: string, drop: char -> bool): string {
    TrimStartBy(TrimEndBy(s, drop), drop)
  }

  function Trim(s: string): string {
    TrimBy(s, IsSpace)
  }

  lemma {:induction false} TrimStartByEnds(s: string, drop: char -> bool)
    ensures var r := TrimStartBy(s, drop); |r| <= |s| && (r != [] ==> !drop(r[0]) && r[|r| - 1] == s[|s| - 1])
  {
    if s != [] && drop(s[0]) {
      TrimStartByEnds(s[1..], drop);
    }
  }

  lemma {:induction false} TrimEndByEnds(s: string, drop: char -> bool)
    ensures var r := TrimEndBy(s, drop); |r| <= |s| && (r != [] ==> !drop(r[|r| - 1]))
  {
    if s != [] && drop(s[|s| - 1]) {
      TrimEndByEnds(s[..|s| - 1], drop);
    }
  }

  /** What is left after trimming starts and ends with a character to keep. */
  lemma TrimByEnds(s: string, drop: char -> bool)
    ensures var r := TrimBy(s, drop); |r| <= |s| && (r != [] ==> !drop(r[0]) && !drop(r[|r| - 1]))
  {
    TrimEndByEnds(s, drop);
    TrimStartByEnds(TrimEndBy(s, drop), drop);
  }

  /** Nothing to drop at either end: trimming is the identity. */
  lemma TrimByKeeps(s: string, drop: char -> bool)
    requires s != [] ==> !drop(s[0]) && !drop(s[|s| - 1])
    ensures TrimBy(s, drop) == s
  {
  }

  /** Exactly the texts that keep both ends are left alone; any other gets shorter. */
  lemma TrimByKeepsIff(s: string, drop: char -> bool)
    ensures TrimBy(s, drop) == s <==> (s != [] ==> !drop(s[0]) && !drop(s[|s| - 1]))
    ensures TrimBy(s, drop) != s ==> |TrimBy(s, drop)| < |s|
  {
    TrimByEnds(s, drop);
    TrimEndByEnds(s, drop);
    TrimStartByEnds(TrimEndBy(s, drop), drop);
    if s != [] && drop(s[|s| - 1]) {
      TrimEndByEnds(s[..|s| - 1], drop);
    } else if s != [] && drop(s[0]) {
      TrimStartByEnds(s[1..], drop);
    }
  }

  predicate AllDropped(s: string, drop: char -> bool) {
    forall i :: 0 <= i < |s| ==> drop(s[i])
  }

  /** Trimming the end reaches the front part only when nothing is left of the back part. */
  lemma {:induction false} TrimEndByParts(a: string, b: string, drop: char -> bool)
    ensures TrimEndBy(a + b, drop) == if TrimEndBy(b, drop) == [] then TrimEndBy(a, drop) else a + TrimEndBy(b, drop)
    decreases |b|
  {
    if b == [] {
      assert a + b == a;
    } else if drop(b[|b| - 1]) {
      var shorter := b[..|b| - 1];
      assert (a + b)[..|a + b| - 1] == a + shorter;
      TrimEndByParts(a, shorter, drop);
    }
  }

  lemma {:induction false} TrimEndByDrops(s: string, drop: char -> bool)
    requires AllDropped(s, drop)
    ensures TrimEndBy(s, drop) == []
    decreases |s|
  {
    if s != [] {
      TrimEndByDrops(s[..|s| - 1], drop);
    }
  }

  lemma {:induction false} TrimStartByDrops(before: string, s: string, drop: char -> bool)
    requires AllDropped(before, drop)
    ensures TrimStartBy(before + s, drop) == TrimStartBy(s, drop)
    decreases |before|
  {
    if before == [] {
      assert before + s == s;
    } else {
      assert (before + s)[1..] == before[1..] + s;
      TrimStartByDrops(before[1..], s, drop);
    }
  }

  /** Characters to drop on both sides of a text make no difference. */
  lemma TrimByFrame(before: string, s: string, after: string, drop: char -> bool)
    requires AllDropped(before, drop) && AllDropped(after, drop)
    ensures TrimBy(before + s + after, drop) == TrimBy(s, drop)
  {
    TrimEndByDrops(after, drop);
    TrimEndByParts(before + s, after, drop);
    TrimEndByParts(before, s, drop);
    TrimEndByDrops(before, drop);
    TrimStartByDrops(before, TrimEndBy(s, drop), drop);
  }

  /** Characters to drop on both sides of a text that keeps both its ends go away exactly. */
  lemma TrimByStrips(before: string, s: string, after: string, drop: char -> bool)
    requires s != [] && !drop(s[0]) && !drop(s[|s| - 1])
    requires AllDropped(before, drop) && AllDropped(after, drop)
    ensures TrimBy(before + s + after, drop) == s
  {
    TrimByFrame(before, s, after, drop);
    TrimByKeeps(s, drop);
  }

  lemma {:induction false} TrimEndByTakes(s: string, drop: char -> bool)
    ensures TrimEndBy(s, drop) <= s
  {
    if s != [] && drop(s[|s| - 1]) {
      TrimEndByTakes(s[..|s| - 1], drop);
    }
  }

  /** Trimming the end drops nothing but what is to be dropped. */
  lemma {:induction false} TrimEndByOnly(s: string, drop: char -> bool)
    ensures var r := TrimEndBy(s, drop); r <= s && forall i :: |r| <= i < |s| ==> drop(s[i])
  {
    if s != [] && drop(s[|s| - 1]) {
      TrimEndByOnly(s[..|s| - 1], drop);
    }
  }

  lemma {:induction false} TrimStartByTakes(s: string, drop: char -> bool)
    ensures forall c :: c in TrimStartBy(s, drop) ==> c in s
  {
    if s != [] && drop(s[0]) {
      TrimStartByTakes(s[1..], drop);
    }
  }

  /** Trimming adds no character. */
  lemma TrimByTakes(s: string, drop: char -> bool)
    ensures forall c :: c in TrimBy(s, drop) ==> c in s
  {
    TrimEndByTakes(s, drop);
    TrimStartByTakes(TrimEndBy(s, drop), drop);
  }

  predicate IsQuote(c: char) {
    c == '"'
  }

  predicate NoSpaces(s: string) {
    forall i :: 0 <= i < |s| ==> !IsSpace(s[i])
  }

  // --- searching and splitting ----------------------------------------------------------

  /** The index of the first `c`, or `|s|` when there is none. */
  function IndexOf(s: string, c: char): (i: nat)
    ensures i <= |s|
    ensures i < |s| ==> s[i] == c
    ensures forall j :: 0 <= j < i ==> s[j] != c
  {
    if s == [] || s[0] == c then 0 else 1 + IndexOf(s[1..], c)
  }

  lemma IndexOfAt(before: string, c: char, after: string)
    requires c !in before
    ensures IndexOf(before + [c] + after, c) == |before|
  {
    var s := before + [c] + after;
    var i := IndexOf(s, c);
    assert s[|before|] == c;
    assert forall j :: 0 <= j < |before| ==> s[j] == before[j];
  }

  /** `str::split_once`. */
  function SplitOnce(s: string, c: char): (r: Option<(string, string)>)
    ensures r.Some? <==> c in s
    ensures r.Some? ==> s == r.value.0 + [c] + r.value.1 && c !in r.value.0
  {
    var i := IndexOf(s, c);
    if i == |s| then None else Some((s[..i], s[i + 1..]))
  }

  /** `str::split` on a character: always at least one piece. */
  function Split(s: string, c: char): (r: seq<string>)
    ensures |r| >= 1
    decreases |s|
  {
    var i := IndexOf(s, c);
    if i == |s| then [s] else [s[..i]] + Split(s[i + 1..], c)
  }

  /** The pieces with the character between them. */
  function Glue(pieces: seq<string>, c: char): string {
    if pieces == [] then []
    else if |pieces| == 1 then pieces[0]
    else pieces[0] + ([c] + Glue(pieces[1..], c))
  }

  lemma SplitFirst(piece: string, c: char, rest: string)
    requires c !in piece
    ensures Split(piece + ([c] + rest), c) == [piece] + Split(rest, c)
  {
    var s := piece + [c] + rest;
    assert piece + ([c] + rest) == s;
    IndexOfAt(piece, c, rest);
    assert s[..|piece|] == piece && s[|piece| + 1..] == rest;
  }

  lemma SplitNone(s: string, c: char)
    requires c !in s
    ensures Split(s, c) == [s]
  {
    assert IndexOf(s, c) == |s|;
  }

  lemma {:induction false} SplitGlue(pieces: seq<string>, c: char)
    requires pieces != [] && forall i :: 0 <= i < |pieces| ==> c !in pieces[i]
    ensures Split(Glue(pieces, c), c) == pieces
    decreases |pieces|
  {
    if |pieces| == 1 {
      SplitNone(pieces[0], c);
    } else {
      SplitFirst(pieces[0], c, Glue(pieces[1..], c));
      SplitGlue(pieces[1..], c);
    }
  }

  /** The length of the leading run of non-space characters. */
  function WordEnd(s: string): (i: nat)
    ensures i <= |s|
    ensures i < |s| ==> IsSpace(s[i])
    ensures forall j :: 0 <= j < i ==> !IsSpace(s[j])
  {
    if s == [] || IsSpace(s[0]) then 0 else 1 + WordEnd(s[1..])
  }

  /** `str::split_whitespace`: the maximal runs of non-space characters. */
  function Words(s: string): (r: seq<string>)
    decreases |s|
  {
    if s == [] then []
    else if IsSpace(s[0]) then Words(s[1..])
    else
      var i := WordEnd(s);
      [s[..i]] + Words(s[i..])
  }

  predicate IsWord(w: string) {
    w != [] && NoSpaces(w)
  }

  /** One word at the front, then a space (or nothing): `Words` peels exactly that word. */
  lemma WordsPeel(w: string, rest: string)
    requires IsWord(w)
    requires rest == [] || IsSpace(rest[0])
    ensures Words(w + rest) == [w] + Words(rest)
  {
    var s := w + rest;
    assert s[0] == w[0];
    var i := WordEnd(s);
    assert forall j :: 0 <= j < |w| ==> s[j] == w[j];
    assert rest != [] ==> s[|w|] == rest[0];
    assert s[..i] == w && s[i..] == rest;
  }

  /** What splitting gives are words made of the text's characters. */
  lemma {:induction false} WordsAreWords(s: string)
    ensures forall i :: 0 <= i < |Words(s)| ==> IsWord(Words(s)[i]) && forall c :: c in Words(s)[i] ==> c in s
    decreases |s|
  {
    if s != [] {
      if IsSpace(s[0]) {
        WordsAreWords(s[1..]);
      } else {
        WordsAreWords(s[WordEnd(s)..]);
      }
    }
  }

  // --- ASCII case -----------------------------------------------------------------------

  function LowerAscii(c: char): char {
    if 'A' <= c <= 'Z' then (c as int + 32) as char else c
  }

  predicate EqIgnoreAsciiCase(a: string, b: string) {
    |a| == |b| && forall i :: 0 <= i < |a| ==> LowerAscii(a[i]) == LowerAscii(b[i])
  }

  // --- decimal numerals -----------------------------------------------------------------

  predicate IsDigit(c: char) {
    '0' <= c <= '9'
  }

  function DigitChar(d: nat): (c: char)
    requires d < 10
    ensures IsDigit(c) && DigitValue(c) == d
  {
    ('0' as int + d) as char
  }

  function DigitValue(c: char): (d: nat)
    requires IsDigit(c)
    ensures d < 10
  {
    c as int - '0' as int
  }

  predicate AllDigits(s: string) {
    forall i :: 0 <= i < |s| ==> IsDigit(s[i])
  }

  /** `format!("{n}")`. */
  function Decimal(n: nat): (s: string)
    ensures s != [] && AllDigits(s)
  {
    if n < 10 then [DigitChar(n)] else Decimal(n / 10) + [DigitChar(n % 10)]
  }

  function DigitsValue(s: string): (n: nat)
    requires AllDigits(s)
  {
    if s == [] then 0 else 10 * DigitsValue(s[..|s| - 1]) + DigitValue(s[|s| - 1])
  }

  /** `str::parse` of an unsigned integer no larger than `max`: an optional `+`, then digits. */
  function ParseUnsigned(s: string, max: nat): (r: Option<nat>)
    ensures r.Some? ==> r.value <= max
  {
    var body := if s != [] && s[0] == '+' then s[1..] else s;
    if body == [] || !AllDigits(body) then None
    else
      var n := DigitsValue(body);
      if n <= max then Some(n) else None
  }

  /** `str::parse` of a signed integer in `-max - 1 .. max`. */
  function ParseSigned(s: string, max: nat): (r: Option<int>)
    ensures r.Some? ==> -(max as int) - 1 <= r.value <= max
  {
    if s != [] && s[0] == '-' then
      if s == "-" || !AllDigits(s[1..]) || DigitsValue(s[1..]) > max + 1 then None
      else Some(-(DigitsValue(s[1..]) as int))
    else
      match ParseUnsigned(s, max)
      case None => None
      case Some(n) => Some(n)
  }

  lemma {:induction false} DecimalRoundTrip(n: nat)
    ensures DigitsValue(Decimal(n)) == n
  {
    if n >= 10 {
      DecimalRoundTrip(n / 10);
      var s := Decimal(n);
      assert s[..|s| - 1] == Decimal(n / 10);
    } else {
      assert Decimal(n)[..0] == [];
    }
  }

  lemma DecimalInjective(m: nat, n: nat)
    requires Decimal(m) == Decimal(n)
    ensures m == n
  {
    DecimalRoundTrip(m);
    DecimalRoundTrip(n);
  }

  lemma ParseDecimal(n: nat, max: nat)
    requires n <= max
    ensures ParseUnsigned(Decimal(n), max) == Some(n)
  {
    DecimalRoundTrip(n);
    assert IsDigit(Decimal(n)[0]);
  }

  /** A numeral below `10^k` has at most `k` digits. */
  lemma {:induction false} DecimalLength(n: nat, k: nat)
    requires 1 <= k && n < Pow10(k)
    ensures |Decimal(n)| <= k
    decreases k
  {
    if n >= 10 {
      assert Pow10(1) == 10;
      assert n / 10 < Pow10(k - 1);
      DecimalLength(n / 10, k - 1);
    }
  }

  function Pow10(k: nat): nat {
    if k == 0 then 1 else 10 * Pow10(k - 1)
  }

  /** The length of the run of digits at the end. */
  function DigitRun(s: string): nat {
    if s != [] && IsDigit(s[|s| - 1]) then 1 + DigitRun(s[..|s| - 1]) else 0
  }

  lemma {:induction false} DigitRunAfter(a: string, mark: char, x: string)
    requires !IsDigit(mark) && AllDigits(x)
    ensures DigitRun(a + ([mark] + x)) == |x|
    decreases |x|
  {
    var s := a + ([mark] + x);
    if x != [] {
      var y := x[..|x| - 1];
      assert s[..|s| - 1] == a + ([mark] + y);
      DigitRunAfter(a, mark, y);
    }
  }

  /** A numeral after the last mark tells its number, and what stands before the mark. */
  lemma NumeralReadsBack(a: string, m: nat, b: string, n: nat, mark: char)
    requires !IsDigit(mark) && a + ([mark] + Decimal(m)) == b + ([mark] + Decimal(n))
    ensures a == b && m == n
  {
    var x, y := Decimal(m), Decimal(n);
    DigitRunAfter(a, mark, x);
    DigitRunAfter(b, mark, y);
    var s := a + ([mark] + x);
    assert s[|a| + 1..] == x && s[|b| + 1..] == y && s[..|a|] == a && s[..|b|] == b;
    DecimalInjective(m, n);
  }
}
