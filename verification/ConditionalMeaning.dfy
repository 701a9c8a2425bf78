/**
 What an `If:` header means, said of the header as written, and that the evaluation of what was read says
 the same (`TestIsMeaning`). For one condition it is said on the text (`TokenTest`, `EtagTest`); which path
 a resource tag names, too (`TagNamesPath`).
 */
module ConditionalMeaning {
  import opened Sequences
  import opened Text
  import opened Conditional
  import opened ConditionalTheorems
  import Paths

  // --- what a header means --------------------------------------------------------------

  /** A token is among those of the locks, or with `Not` it is not; the resource has that entity tag, or
      with `Not` it has another or none. */
  predicate CondIs(w: Written, etag: Option<string>, lockTokens: seq<string>) {
    match w.cond
    case Token(false, t) => t in lockTokens
    case Token(true, t) => t !in lockTokens
    case Etag(false, e) => etag.Some? && etag.value == e
    case Etag(true, e) => etag.None? || etag.value != e
  }

  /** A list holds when all its conditions do. */
  predicate ListIs(conds: seq<Written>, etag: Option<string>, lockTokens: seq<string>) {
    forall i :: 0 <= i < |conds| ==> CondIs(conds[i], etag, lockTokens)
  }

  /** The resource in force at a part is that of the last tag before it; `first` when there is none. */
  function InForce(parts: seq<Part>, first: string, i: nat, decode: string -> Option<string>): string
    requires i < |parts|
    decreases i
  {
    if i == 0 then first
    else InForce(parts[1..], if parts[0].Tag? then NormalizeTag(parts[0].spelling, decode) else first, i - 1, decode)
  }

  /** Part `i` is a list about the resource. */
  predicate AboutFrom(parts: seq<Part>, first: string, i: int, resource: string, decode: string -> Option<string>) {
    0 <= i < |parts| && parts[i].List? && InForce(parts, first, i, decode) == resource
  }

  predicate About(parts: seq<Part>, i: int, resource: string, decode: string -> Option<string>) {
    AboutFrom(parts, ANY, i, resource, decode)
  }

  ghost predicate Mentions(parts: seq<Part>, resource: string, decode: string -> Option<string>) {
    exists i :: About(parts, i, resource, decode)
  }

  ghost predicate SomeListIs(parts: seq<Part>, resource: string, etag: Option<string>, lockTokens: seq<string>,
                       decode: string -> Option<string>)
  {
    exists i :: About(parts, i, resource, decode) && ListIs(parts[i].conds, etag, lockTokens)
  }

  /** Some list about the resource holds; when there is none about it, some list about `*`; when there is
      none about that either, nothing is asked. */
  ghost predicate Means(parts: seq<Part>, path: string, etag: Option<string>, lockTokens: seq<string>,
                  decode: string -> Option<string>)
  {
    if Mentions(parts, Paths.Normalize(path), decode) then
      SomeListIs(parts, Paths.Normalize(path), etag, lockTokens, decode)
    else Mentions(parts, ANY, decode) ==> SomeListIs(parts, ANY, etag, lockTokens, decode)
  }

  // --- the evaluation -------------------------------------------------------------------

  lemma ListHoldsIff(conds: seq<Written>, etag: Option<string>, lockTokens: seq<string>)
    ensures AllHold(Conds(conds), etag, lockTokens) <==> ListIs(conds, etag, lockTokens)
  {
    forall i | 0 <= i < |conds|
      ensures CondHolds(Conds(conds)[i], etag, lockTokens) <==> CondIs(conds[i], etag, lockTokens)
    {
    }
  }

  lemma AboutLater(parts: seq<Part>, first: string, i: int, resource: string, decode: string -> Option<string>)
    requires parts != [] && i != 0
    ensures var next := if parts[0].Tag? then NormalizeTag(parts[0].spelling, decode) else first;
      AboutFrom(parts, first, i, resource, decode) <==> AboutFrom(parts[1..], next, i - 1, resource, decode)
  {
  }

  /** The lists of a resource are those about it. */
  lemma {:induction false} ListsAreAbout(parts: seq<Part>, first: string, resource: string, conds: seq<Cond>,
                                         decode: string -> Option<string>)
    ensures conds in ListsFor(parts, first, resource, decode) <==>
      exists i :: AboutFrom(parts, first, i, resource, decode) && Conds(parts[i].conds) == conds
    decreases |parts|
  {
    if parts != [] {
      var next := if parts[0].Tag? then NormalizeTag(parts[0].spelling, decode) else first;
      var rest := ListsFor(parts[1..], next, resource, decode);
      ListsAreAbout(parts[1..], next, resource, conds, decode);
      if i :| AboutFrom(parts, first, i, resource, decode) && Conds(parts[i].conds) == conds {
        if i != 0 {
          AboutLater(parts, first, i, resource, decode);
          assert conds in rest;
        }
      }
      if conds in rest {
        var i :| AboutFrom(parts[1..], next, i, resource, decode) && Conds(parts[1..][i].conds) == conds;
        AboutLater(parts, first, i + 1, resource, decode);
      } else if conds in ListsFor(parts, first, resource, decode) {
        assert AboutFrom(parts, first, 0, resource, decode);
      }
    }
  }

  /** Some list read for a resource holds exactly when some list written about it does. */
  lemma ListsMean(parts: seq<Part>, resource: string, etag: Option<string>, lockTokens: seq<string>,
                  decode: string -> Option<string>)
    ensures var lists := ListsFor(parts, ANY, resource, decode);
      && (lists != [] <==> Mentions(parts, resource, decode))
      && (SomeListHolds(lists, etag, lockTokens) <==> SomeListIs(parts, resource, etag, lockTokens, decode))
  {
    var lists := ListsFor(parts, ANY, resource, decode);
    forall i | About(parts, i, resource, decode)
      ensures Conds(parts[i].conds) in lists
      ensures AllHold(Conds(parts[i].conds), etag, lockTokens) <==> ListIs(parts[i].conds, etag, lockTokens)
    {
      ListsAreAbout(parts, ANY, resource, Conds(parts[i].conds), decode);
      ListHoldsIff(parts[i].conds, etag, lockTokens);
    }
    forall k | 0 <= k < |lists|
      ensures exists i :: About(parts, i, resource, decode) && Conds(parts[i].conds) == lists[k]
    {
      ListsAreAbout(parts, ANY, resource, lists[k], decode);
      var i :| AboutFrom(parts, ANY, i, resource, decode) && Conds(parts[i].conds) == lists[k];
      assert About(parts, i, resource, decode);
    }
    if SomeListIs(parts, resource, etag, lockTokens, decode) {
      var i :| About(parts, i, resource, decode) && ListIs(parts[i].conds, etag, lockTokens);
      var k :| 0 <= k < |lists| && lists[k] == Conds(parts[i].conds);
      assert AllHold(lists[k], etag, lockTokens);
    }
    if SomeListHolds(lists, etag, lockTokens) {
      var k :| 0 <= k < |lists| && AllHold(lists[k], etag, lockTokens);
      var i :| About(parts, i, resource, decode) && Conds(parts[i].conds) == lists[k];
      assert ListIs(parts[i].conds, etag, lockTokens);
    }
  }

  /** Evaluating a parsed readable header is evaluating what was written. */
  lemma TestIsMeaning(parts: seq<Part>, path: string, etag: Option<string>, lockTokens: seq<string>,
                      decode: string -> Option<string>)
    requires TagsClosed(parts) && AllReadable(parts)
    ensures Test(Parse(Print(parts), decode), path, etag, lockTokens) <==> Means(parts, path, etag, lockTokens, decode)
  {
    RoundTrip(parts, Paths.Normalize(path), decode);
    RoundTrip(parts, ANY, decode);
    ListsMean(parts, Paths.Normalize(path), etag, lockTokens, decode);
    ListsMean(parts, ANY, etag, lockTokens, decode);
  }

  // --- one condition --------------------------------------------------------------------

  lemma OneCondTest(w: Written, path: string, etag: Option<string>, lockTokens: seq<string>,
                    decode: string -> Option<string>)
    requires Readable(w)
    ensures Test(Parse(Print([List([w])]), decode), path, etag, lockTokens) <==> CondIs(w, etag, lockTokens)
  {
    var parts := [List([w])];
    assert PartReadable(parts[0]);
    TestIsMeaning(parts, path, etag, lockTokens, decode);
    assert Paths.Normalize(path)[0] == '/';
    assert !Mentions(parts, Paths.Normalize(path), decode);
    assert About(parts, 0, ANY, decode);
    assert ListIs(parts[0].conds, etag, lockTokens) <==> CondIs(parts[0].conds[0], etag, lockTokens);
  }

  lemma JoinOne(a: string)
    ensures Join([a]) == a
  {
  }

  lemma JoinMore(a: string, rest: seq<string>)
    requires rest != []
    ensures Join([a] + rest) == a + (" " + Join(rest))
  {
    assert ([a] + rest)[1..] == rest && [' '] == " ";
  }

  lemma JoinTwo(a: string, b: string)
    ensures Join([a, b]) == a + (" " + b)
  {
    JoinMore(a, [b]);
    JoinOne(b);
    assert [a] + [b] == [a, b];
  }

  lemma ListText(w: Written, content: string)
    requires Join(CondWords([w])) == content
    ensures Print([List([w])]) == "(" + content + ")"
  {
    assert [List([w])][1..] == [];
  }

  /** The text of a header of one condition. */
  lemma OneCondText(w: Written)
    ensures !w.cond.negated ==> Print([List([w])]) == "(" + PrintCond(w) + ")"
    ensures w.cond.negated ==> Print([List([w])]) == "(" + ("Not" + (" " + PrintCond(w))) + ")"
  {
    var words := NotWord(w.cond.negated) + [PrintCond(w)];
    assert [w][1..] == [] && CondWords([w]) == words + [];
    if w.cond.negated {
      assert words + [] == ["Not", PrintCond(w)];
      JoinTwo("Not", PrintCond(w));
      ListText(w, "Not" + (" " + PrintCond(w)));
    } else {
      assert words + [] == [PrintCond(w)];
      JoinOne(PrintCond(w));
      ListText(w, PrintCond(w));
    }
  }

  lemma NotText(text: string)
    ensures "(" + ("Not" + (" " + text)) + ")" == "(Not " + text + ")"
  {
    assert "(" + ("Not" + " ") == "(Not ";
  }

  /** The header of one condition as written holds exactly when the condition does. */
  lemma TextTest(w: Written, path: string, etag: Option<string>, lockTokens: seq<string>,
                 decode: string -> Option<string>)
    requires Readable(w)
    ensures var text := if w.cond.negated then "(Not " + PrintCond(w) + ")" else "(" + PrintCond(w) + ")";
      Test(Parse(text, decode), path, etag, lockTokens) <==> CondIs(w, etag, lockTokens)
  {
    OneCondText(w);
    NotText(PrintCond(w));
    OneCondTest(w, path, etag, lockTokens, decode);
  }

  /** A header of one lock token, with and without `Not`. */
  lemma TokenTest(t: string, path: string, etag: Option<string>, lockTokens: seq<string>,
                  decode: string -> Option<string>)
    requires Readable(Written(Token(false, t), false))
    ensures Test(Parse("(" + ("<" + t + ">") + ")", decode), path, etag, lockTokens) <==> t in lockTokens
    ensures Test(Parse("(Not " + ("<" + t + ">") + ")", decode), path, etag, lockTokens) <==> t !in lockTokens
  {
    TextTest(Written(Token(false, t), false), path, etag, lockTokens, decode);
    TextTest(Written(Token(true, t), false), path, etag, lockTokens, decode);
  }

  /** A header of one entity tag, with and without `Not`. */
  lemma EtagTest(e: string, path: string, etag: Option<string>, lockTokens: seq<string>,
                 decode: string -> Option<string>)
    requires Readable(Written(Etag(false, e), false))
    ensures Test(Parse("(" + ("[\"" + e + "\"]") + ")", decode), path, etag, lockTokens) <==> etag == Some(e)
    ensures Test(Parse("(Not " + ("[\"" + e + "\"]") + ")", decode), path, etag, lockTokens) <==> etag != Some(e)
  {
    TextTest(Written(Etag(false, e), false), path, etag, lockTokens, decode);
    TextTest(Written(Etag(true, e), false), path, etag, lockTokens, decode);
  }

  // --- the path of a tag ----------------------------------------------------------------

  lemma {:induction false} SchemeEndAt(scheme: string, rest: string)
    requires ':' !in scheme
    ensures SchemeEnd(scheme + "://" + rest) == |scheme|
    decreases |scheme|
  {
    var s := scheme + "://" + rest;
    if scheme == [] {
      assert s[..3] == "://";
    } else {
      assert s[0] == scheme[0] && s[1..] == scheme[1..] + "://" + rest;
      SchemeEndAt(scheme[1..], rest);
    }
  }

  function Decoded(path: string, decode: string -> Option<string>): string {
    Paths.Normalize(if decode(path).Some? then decode(path).value else path)
  }

  /** A tag without a scheme is the path; it is decoded when it can be, and normalised. */
  lemma PlainTagIsPath(path: string, decode: string -> Option<string>)
    requires SchemeEnd(path) == |path| && path != ANY
    ensures NormalizeTag(path, decode) == Decoded(path, decode)
  {
  }

  lemma SchemeRest(scheme: string, rest: string)
    ensures var tag := scheme + "://" + rest; |tag| == |scheme| + 3 + |rest| && tag[|scheme| + 3..] == rest
  {
  }

  lemma AfterSchemeEnd(tag: string, rest: string)
    requires SchemeEnd(tag) < |tag| && tag[SchemeEnd(tag) + 3..] == rest
    ensures TagPath(tag) == var j := IndexOf(rest, '/'); if j == |rest| then "/" else rest[j..]
  {
  }

  lemma TagIsDecoded(tag: string, decode: string -> Option<string>)
    requires tag != ANY
    ensures NormalizeTag(tag, decode) == Decoded(TagPath(tag), decode)
  {
  }

  lemma AfterScheme(scheme: string, rest: string, decode: string -> Option<string>)
    requires ':' !in scheme
    ensures var j := IndexOf(rest, '/');
      NormalizeTag(scheme + "://" + rest, decode) == Decoded(if j == |rest| then "/" else rest[j..], decode)
  {
    SchemeEndAt(scheme, rest);
    SchemeRest(scheme, rest);
    AfterSchemeEnd(scheme + "://" + rest, rest);
    TagIsDecoded(scheme + "://" + rest, decode);
  }

  /** A full address names the path from the first slash after the host; with none it names the root. */
  lemma TagNamesPath(scheme: string, host: string, path: string, decode: string -> Option<string>)
    requires ':' !in scheme && '/' !in host
    ensures NormalizeTag(scheme + "://" + (host + ['/'] + path), decode) == Decoded("/" + path, decode)
    ensures NormalizeTag(scheme + "://" + host, decode) == Decoded("/", decode)
  {
    var rest := host + ['/'] + path;
    AfterScheme(scheme, rest, decode);
    AfterScheme(scheme, host, decode);
    IndexOfAt(host, '/', path);
    assert rest[|host|..] == "/" + path;
  }

  // --- a tag the reader cuts up ---------------------------------------------------------

  /** The entity tag in the example of section 10.4.6 of RFC 4918. */
  const SPACED := Written(Etag(false, "I am an ETag"), false)

  lemma FourWords(a: string, b: string, c: string, d: string)
    requires IsWord(a) && IsWord(b) && IsWord(c) && IsWord(d)
    ensures Words(a + (" " + (b + (" " + (c + (" " + d)))))) == [a, b, c, d]
  {
    WordsOfJoin([a, b, c, d]);
    JoinTwo(c, d);
    JoinMore(b, [c, d]);
    JoinMore(a, [b, c, d]);
    assert [b] + [c, d] == [b, c, d] && [a] + [b, c, d] == [a, b, c, d];
  }

  lemma SpacedWords()
    ensures Words("[\"I am an ETag\"]") == ["[\"I", "am", "an", "ETag\"]"]
  {
    var a, b, c, d := "[\"I", "am", "an", "ETag\"]";
    assert c + (" " + d) == "an ETag\"]";
    assert b + (" " + "an ETag\"]") == "am an ETag\"]";
    assert a + (" " + "am an ETag\"]") == "[\"I am an ETag\"]";
    FourWords(a, b, c, d);
  }

  const SPACED_READ := [Etag(false, "I"), Token(false, "am"), Token(false, "an"), Token(false, "ETag\"]")]

  lemma SpacedItems()
    ensures ParseItem("[\"I", false) == SPACED_READ[0] && ParseItem("am", false) == SPACED_READ[1]
    ensures ParseItem("an", false) == SPACED_READ[2] && ParseItem("ETag\"]", false) == SPACED_READ[3]
  {
    TrimByFrame("[\"", "I", "", IsTagFrame);
    assert "[\"" + "I" + "" == "[\"I";
    TrimByKeeps("I", IsTagFrame);
    TrimByKeeps("I", IsQuote);
    TrimByKeeps("am", IsAngle);
    TrimByKeeps("an", IsAngle);
    TrimByKeeps("ETag\"]", IsAngle);
  }

  lemma FourItems(a: string, b: string, c: string, d: string)
    requires !IsNot(a) && !IsNot(b) && !IsNot(c) && !IsNot(d)
    ensures ParseItems([a, b, c, d], false) ==
      [ParseItem(a, false), ParseItem(b, false), ParseItem(c, false), ParseItem(d, false)]
  {
    assert [a, b, c, d][1..] == [b, c, d] && [b, c, d][1..] == [c, d] && [c, d][1..] == [d] && [d][1..] == [];
    assert ParseItems([d], false) == [ParseItem(d, false)];
    assert ParseItems([c, d], false) == [ParseItem(c, false), ParseItem(d, false)];
  }

  lemma SpacedIsRead()
    ensures ParseItems(Words("[\"I am an ETag\"]"), false) == SPACED_READ
  {
    SpacedWords();
    SpacedItems();
    FourItems("[\"I", "am", "an", "ETag\"]");
  }

  lemma OneCondPrints(w: Written)
    requires !w.cond.negated
    ensures Print([List([w])]) == "(" + PrintCond(w) + ")" + ""
  {
    assert [List([w])][1..] == [] && [w][1..] == [];
    assert CondWords([w]) == [PrintCond(w)];
  }

  lemma OneCondParses(w: Written, decode: string -> Option<string>)
    requires !w.cond.negated && ')' !in PrintCond(w)
    ensures Parse(Print([List([w])]), decode).entries == [Entry(ANY, [ParseItems(Words(PrintCond(w)), false)])]
  {
    var parts := [List([w])];
    OneCondPrints(w);
    PrintIsTrimmed(parts);
    AnyTagReadsBack(Print(parts), decode);
    ListReadsBack(PrintCond(w), "", ANY, NO_HEADER, decode);
  }

  lemma SpacedParses(w: Written, decode: string -> Option<string>)
    requires w == SPACED
    ensures Parse(Print([List([w])]), decode).entries == [Entry(ANY, [SPACED_READ])]
  {
    SpacedIsRead();
    SpacedPrints(w);
    OneCondParses(w, decode);
  }

  lemma SpacedPrints(w: Written)
    requires w == SPACED
    ensures PrintCond(w) == "[\"I am an ETag\"]" && ')' !in PrintCond(w)
  {
  }

  /** It is read as a tag and three tokens, so a header that holds is found not to. */
  lemma SpacedTagIsMisread(decode: string -> Option<string>)
    ensures var h, etag := Parse(Print([List([SPACED])]), decode), Some("I am an ETag");
      && h.entries == [Entry(ANY, [SPACED_READ])]
      && !Test(h, "/f", etag, []) && Means([List([SPACED])], "/f", etag, [], decode)
  {
    SpacedParses(SPACED, decode);
    SpacedTest(Parse(Print([List([SPACED])]), decode));
    SpacedMeans(decode);
  }

  lemma SpacedTest(h: IfHeader)
    requires h.entries == [Entry(ANY, [SPACED_READ])]
    ensures !Test(h, "/f", Some("I am an ETag"), [])
  {
    assert !CondHolds(SPACED_READ[1], Some("I am an ETag"), []);
    assert h.entries[1..] == [];
    assert Paths.Normalize("/f")[0] == '/' && ANY[0] == '*';
    assert FindEntry(h.entries, Paths.Normalize("/f")) == None;
    assert FindEntry(h.entries, ANY) == Some([SPACED_READ]);
  }

  lemma SpacedMeans(decode: string -> Option<string>)
    ensures Means([List([SPACED])], "/f", Some("I am an ETag"), [], decode)
  {
    var parts := [List([SPACED])];
    assert Paths.Normalize("/f")[0] == '/';
    assert !Mentions(parts, Paths.Normalize("/f"), decode);
    assert ListIs(parts[0].conds, Some("I am an ETag"), []);
    assert About(parts, 0, ANY, decode);
  }
}
