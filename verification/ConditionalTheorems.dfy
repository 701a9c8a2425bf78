/**
 What the `If:` reader makes of a header as a client writes it: exactly the `Readable` conditions are read
 back (`ReadsBackIff`), and whatever was read can be written to be read again (`ParsedIsWritable`).
 */
module ConditionalTheorems {
  import opened Sequences
  import opened Text
  import opened Conditional
  import Paths

  // --- headers as written ---------------------------------------------------------------

  /** A condition as a client writes it; `weak` puts `W/` before an entity tag. */
  datatype Written = Written(cond: Cond, weak: bool)

  datatype Part = Tag(spelling: string) | List(conds: seq<Written>)

  function PrintCond(w: Written): string {
    match w.cond
    case Token(_, token) => "<" + token + ">"
    case Etag(_, etag) => if w.weak then "[W/\"" + etag + "\"]" else "[\"" + etag + "\"]"
  }

  function CondWords(conds: seq<Written>): seq<string>
    decreases |conds|
  {
    if conds == [] then []
    else NotWord(conds[0].cond.negated) + [PrintCond(conds[0])] + CondWords(conds[1..])
  }

  function Join(words: seq<string>): string {
    Glue(words, ' ')
  }

  function PrintPart(p: Part): string {
    match p
    case Tag(spelling) => "<" + spelling + ">"
    case List(conds) => "(" + Join(CondWords(conds)) + ")"
  }

  function Print(parts: seq<Part>): string
    decreases |parts|
  {
    if parts == [] then "" else PrintPart(parts[0]) + Print(parts[1..])
  }

  function Conds(conds: seq<Written>): (r: seq<Cond>)
    ensures |r| == |conds| && forall i :: 0 <= i < |conds| ==> r[i] == conds[i].cond
  {
    seq(|conds|, i requires 0 <= i < |conds| => conds[i].cond)
  }

  // --- what reads back ------------------------------------------------------------------

  function Content(c: Cond): string {
    match c
    case Token(_, token) => token
    case Etag(_, etag) => etag
  }

  /** Nothing inside that ends a word or the list. */
  predicate Solid(w: Written) {
    NoSpaces(Content(w.cond)) && ')' !in Content(w.cond)
  }

  /** The ends are not taken for part of the frame: no angle brackets on a token, no quotes and brackets on
      a tag. A tag in the weak frame may start with a bracket or with `W/`, as its frame stops the
      trimming; in the strong one it may not. An empty token or tag has no ends. */
  predicate EndsKept(w: Written) {
    match w.cond
    case Token(_, t) => t == "" || (!IsAngle(t[0]) && !IsAngle(t[|t| - 1]))
    case Etag(_, t) =>
      t == "" || (!IsTagFrame(t[|t| - 1]) && if w.weak then !IsQuote(t[0]) else !IsTagFrame(t[0]) && !("W/" <= t))
  }

  predicate Readable(w: Written) {
    Solid(w) && EndsKept(w)
  }

  predicate PartReadable(p: Part) {
    p.List? ==> forall i :: 0 <= i < |p.conds| ==> Readable(p.conds[i])
  }

  predicate AllReadable(parts: seq<Part>) {
    forall i :: 0 <= i < |parts| ==> PartReadable(parts[i])
  }

  /** A tag is closed by its own bracket. */
  predicate TagsClosed(parts: seq<Part>) {
    forall i :: 0 <= i < |parts| ==> parts[i].Tag? ==> '>' !in parts[i].spelling
  }

  predicate PartSolid(p: Part) {
    match p
    case Tag(spelling) => '>' !in spelling
    case List(conds) => forall i :: 0 <= i < |conds| ==> Solid(conds[i])
  }

  predicate AllSolid(parts: seq<Part>) {
    forall i :: 0 <= i < |parts| ==> PartSolid(parts[i])
  }

  /** The condition the reader makes of a written one, taken as one word. */
  function AsRead(w: Written): Written {
    Written(ParseItem(PrintCond(w), w.cond.negated), w.weak)
  }

  function CondsAsRead(conds: seq<Written>): (r: seq<Written>)
    ensures |r| == |conds| && forall i :: 0 <= i < |conds| ==> r[i] == AsRead(conds[i])
  {
    if conds == [] then [] else [AsRead(conds[0])] + CondsAsRead(conds[1..])
  }

  function PartAsRead(p: Part): Part {
    match p
    case Tag(_) => p
    case List(conds) => List(CondsAsRead(conds))
  }

  function PartsAsRead(parts: seq<Part>): (r: seq<Part>)
    ensures |r| == |parts| && forall i :: 0 <= i < |parts| ==> r[i] == PartAsRead(parts[i])
  {
    seq(|parts|, i requires 0 <= i < |parts| => PartAsRead(parts[i]))
  }

  // --- the lists as written -------------------------------------------------------------

  /** The lists written under `resource`, in order; `current` is the resource in force. */
  function ListsFor(parts: seq<Part>, current: string, resource: string, decode: string -> Option<string>)
    : seq<seq<Cond>>
    decreases |parts|
  {
    if parts == [] then []
    else
      match parts[0]
      case Tag(spelling) => ListsFor(parts[1..], NormalizeTag(spelling, decode), resource, decode)
      case List(conds) =>
        (if current == resource then [Conds(conds)] else []) + ListsFor(parts[1..], current, resource, decode)
  }

  /** Every token written, in order. */
  function WrittenTokens(parts: seq<Part>): seq<string>
    decreases |parts|
  {
    if parts == [] then []
    else (if parts[0].List? then TokensOf(Conds(parts[0].conds)) else []) + WrittenTokens(parts[1..])
  }

  // --- reading back ---------------------------------------------------------------------

  lemma {:induction false} WordsOfJoin(words: seq<string>)
    requires forall i :: 0 <= i < |words| ==> IsWord(words[i])
    ensures Words(Join(words)) == words
    decreases |words|
  {
    if |words| == 1 {
      WordsPeel(words[0], "");
      assert words[0] + "" == words[0];
      assert words == [words[0]];
    } else if |words| > 1 {
      var rest := " " + Join(words[1..]);
      WordsPeel(words[0], rest);
      assert rest[1..] == Join(words[1..]);
      WordsOfJoin(words[1..]);
      assert words == [words[0]] + words[1..];
    }
  }

  lemma {:induction false} JoinHasNoParen(words: seq<string>)
    requires forall i :: 0 <= i < |words| ==> ')' !in words[i]
    ensures ')' !in Join(words)
    decreases |words|
  {
    if |words| > 1 {
      JoinHasNoParen(words[1..]);
    }
  }

  predicate CondWord(w: string) {
    IsWord(w) && ')' !in w
  }

  function NotWord(negated: bool): seq<string> {
    if negated then ["Not"] else []
  }

  lemma ItemPeels(item: string, negated: bool, rest: seq<string>)
    requires !IsNot(item)
    ensures ParseItems(NotWord(negated) + [item] + rest, false) == [ParseItem(item, negated)] + ParseItems(rest, false)
  {
    assert IsNot("Not");
    assert ([item] + rest)[1..] == rest;
    if negated {
      assert (NotWord(true) + [item] + rest)[1..] == [item] + rest;
    } else {
      assert NotWord(false) + [item] + rest == [item] + rest;
    }
  }

  lemma TokenReadsBackIff(t: string, negated: bool)
    ensures ParseItem("<" + t + ">", negated) == Token(negated, t) <==>
      t == "" || (!IsAngle(t[0]) && !IsAngle(t[|t| - 1]))
  {
    TrimByFrame("<", t, ">", IsAngle);
    TrimByKeepsIff(t, IsAngle);
  }

  lemma {:induction false} DropWeakIff(s: string)
    ensures |DropWeak(s)| <= |s| && (DropWeak(s) == s <==> !("W/" <= s))
  {
    if "W/" <= s {
      DropWeakIff(s[2..]);
    }
  }

  lemma StrongReadsBackIff(t: string, negated: bool)
    ensures ParseItem("[\"" + t + "\"]", negated) == Etag(negated, t) <==>
      t == "" || (!IsTagFrame(t[|t| - 1]) && !IsTagFrame(t[0]) && !("W/" <= t))
  {
    TrimByFrame("[\"", t, "\"]", IsTagFrame);
    TrimByKeepsIff(t, IsTagFrame);
    var inner := TrimBy(t, IsTagFrame);
    DropWeakIff(inner);
    TrimByKeepsIff(DropWeak(inner), IsQuote);
  }

  /** What is left of the weak frame. */
  lemma WeakFrameTrims(t: string)
    ensures TrimBy("[W/\"" + t + "\"]", IsTagFrame) ==
      if TrimEndBy(t, IsTagFrame) == "" then "W/" else "W/\"" + TrimEndBy(t, IsTagFrame)
  {
    var inner := "W/\"" + t;
    assert "[W/\"" + t + "\"]" == "[" + inner + "\"]";
    TrimByFrame("[", inner, "\"]", IsTagFrame);
    TrimEndByParts("W/\"", t, IsTagFrame);
    WeakFrontTrims();
  }

  lemma WeakFrontTrims()
    ensures TrimEndBy("W/\"", IsTagFrame) == "W/"
  {
    TrimEndByParts("W/", "\"", IsTagFrame);
    TrimEndByDrops("\"", IsTagFrame);
    assert "W/" + "\"" == "W/\"";
  }

  lemma WeakPrefixDrops(t: string)
    ensures DropWeak("W/\"" + t) == "\"" + t && TrimBy("\"" + t, IsQuote) == TrimBy(t, IsQuote)
    ensures DropWeak("W/") == ""
  {
    var quoted := "\"" + t;
    assert ("W/\"" + t)[2..] == quoted && quoted[0] == '"';
    TrimByFrame("\"", t, "", IsQuote);
    assert quoted + "" == quoted;
  }

  lemma WeakReadsBackIff(t: string, negated: bool)
    ensures ParseItem("[W/\"" + t + "\"]", negated) == Etag(negated, t) <==>
      t == "" || (!IsTagFrame(t[|t| - 1]) && !IsQuote(t[0]))
  {
    var kept := TrimEndBy(t, IsTagFrame);
    WeakFrameTrims(t);
    WeakPrefixDrops(kept);
    TrimEndByTakes(t, IsTagFrame);
    TrimEndByEnds(t, IsTagFrame);
    TrimByKeepsIff(kept, IsQuote);
  }

  /** The exact condition for a condition that is one word. */
  lemma CondReadsBackIff(w: Written)
    ensures AsRead(w) == w <==> EndsKept(w)
  {
    match w.cond
    case Token(negated, token) => TokenReadsBackIff(token, negated);
    case Etag(negated, etag) =>
      if w.weak {
        WeakReadsBackIff(etag, negated);
      } else {
        StrongReadsBackIff(etag, negated);
      }
  }

  lemma SolidIsWord(w: Written)
    requires Solid(w)
    ensures CondWord(PrintCond(w)) && !IsNot(PrintCond(w))
  {
    var word := PrintCond(w);
    assert word[0] == '<' || word[0] == '[';
    assert LowerAscii('<') != LowerAscii('n') && LowerAscii('[') != LowerAscii('n');
  }

  lemma PiecesAreSolid(item: string, piece: string)
    requires CondWord(item) && forall c :: c in piece ==> c in item
    ensures NoSpaces(piece) && ')' !in piece
  {
    forall i | 0 <= i < |piece| ensures !IsSpace(piece[i]) {
      assert piece[i] in item;
    }
  }

  lemma TokenIsTidy(item: string)
    requires CondWord(item)
    ensures Tidy(Token(false, TrimBy(item, IsAngle))) && Tidy(Token(true, TrimBy(item, IsAngle)))
  {
    TrimByTakes(item, IsAngle);
    TrimByEnds(item, IsAngle);
    PiecesAreSolid(item, TrimBy(item, IsAngle));
  }

  lemma EtagIsTidy(item: string, inner: string, negated: bool)
    requires CondWord(item) && inner == TrimBy(item, IsTagFrame)
    ensures Tidy(Etag(negated, TrimBy(DropWeak(inner), IsQuote)))
  {
    var rest := DropWeak(inner);
    var etag := TrimBy(rest, IsQuote);
    TrimByTakes(item, IsTagFrame);
    TrimByEnds(item, IsTagFrame);
    DropWeakTakes(inner);
    TrimByTakes(rest, IsQuote);
    TrimByEnds(rest, IsQuote);
    assert forall c :: c in rest ==> c in inner;
    PiecesAreSolid(item, etag);
    if rest != "" {
      assert rest[|rest| - 1] == inner[|inner| - 1];
      assert TrimEndBy(rest, IsQuote) == rest;
      TrimStartByEnds(rest, IsQuote);
    }
  }

  /** Any condition the reader makes of a word reads back in the weak frame. */
  lemma ItemIsTidy(item: string, negated: bool)
    requires CondWord(item)
    ensures Tidy(ParseItem(item, negated))
  {
    if item[0] == '[' {
      EtagIsTidy(item, TrimBy(item, IsTagFrame), negated);
    } else {
      TokenIsTidy(item);
    }
  }

  lemma TailOfTail(s: string, r: string)
    requires |r| <= |s| - 2 && s[2..][|s| - 2 - |r|..] == r
    ensures s[|s| - |r|..] == r
  {
  }

  lemma {:induction false} DropWeakTakes(s: string)
    ensures var r := DropWeak(s); |r| <= |s| && s[|s| - |r|..] == r
  {
    if "W/" <= s {
      DropWeakTakes(s[2..]);
      TailOfTail(s, DropWeak(s[2..]));
    }
  }

  /** What every condition that was read is like. */
  predicate Tidy(c: Cond) {
    Readable(Written(c, true))
  }

  predicate TidyList(list: seq<Cond>) {
    forall i :: 0 <= i < |list| ==> Tidy(list[i])
  }

  lemma CondPeels(c: Written, rest: seq<string>)
    requires Solid(c)
    ensures ParseItems(NotWord(c.cond.negated) + [PrintCond(c)] + rest, false)
         == [AsRead(c).cond] + ParseItems(rest, false)
    ensures CondWord(PrintCond(c))
  {
    SolidIsWord(c);
    ItemPeels(PrintCond(c), c.cond.negated, rest);
  }

  lemma FirstCond(w: Written, rest: seq<Written>)
    ensures Conds([w] + rest) == [w.cond] + Conds(rest)
  {
  }

  lemma {:induction false} CondsReadAsWords(conds: seq<Written>)
    requires forall i :: 0 <= i < |conds| ==> Solid(conds[i])
    ensures ParseItems(CondWords(conds), false) == Conds(CondsAsRead(conds))
    decreases |conds|
  {
    if conds != [] {
      FirstCond(AsRead(conds[0]), CondsAsRead(conds[1..]));
      CondPeels(conds[0], CondWords(conds[1..]));
      CondsReadAsWords(conds[1..]);
    }
  }

  lemma {:induction false} CondWordsAreWords(conds: seq<Written>)
    requires forall i :: 0 <= i < |conds| ==> Solid(conds[i])
    ensures forall i :: 0 <= i < |CondWords(conds)| ==> CondWord(CondWords(conds)[i])
    decreases |conds|
  {
    if conds != [] {
      var rest := CondWords(conds[1..]);
      CondPeels(conds[0], rest);
      CondWordsAreWords(conds[1..]);
      assert CondWord("Not");
      var words := NotWord(conds[0].cond.negated) + [PrintCond(conds[0])];
      assert CondWords(conds) == words + rest;
      forall i | 0 <= i < |words + rest| ensures CondWord((words + rest)[i]) {
        assert i < |words| ==> words[i] == "Not" || words[i] == PrintCond(conds[0]);
      }
    }
  }

  /** The parser's state after reading the parts, step by step. */
  function Collect(parts: seq<Part>, resource: string, h: IfHeader, decode: string -> Option<string>): IfHeader
    decreases |parts|
  {
    if parts == [] then h
    else
      match parts[0]
      case Tag(spelling) => Collect(parts[1..], NormalizeTag(spelling, decode), h, decode)
      case List(conds) => Collect(parts[1..], resource, WithList(h, resource, Conds(conds)), decode)
  }

  lemma TagReadsBack(spelling: string, more: string, resource: string, h: IfHeader, decode: string -> Option<string>)
    requires '>' !in spelling
    ensures ParseFrom("<" + spelling + ">" + more, resource, h, decode)
         == ParseFrom(more, NormalizeTag(spelling, decode), h, decode)
  {
    var text := "<" + spelling + ">" + more;
    var tail := spelling + ">" + more;
    assert text[1..] == tail && text[0] == '<';
    IndexOfAt(spelling, '>', more);
    assert tail[..|spelling|] == spelling && tail[|spelling| + 1..] == more;
  }

  lemma ListReadsBack(content: string, more: string, resource: string, h: IfHeader, decode: string -> Option<string>)
    requires ')' !in content
    ensures ParseFrom("(" + content + ")" + more, resource, h, decode)
         == ParseFrom(more, resource, WithList(h, resource, ParseItems(Words(content), false)), decode)
  {
    var text := "(" + content + ")" + more;
    var tail := content + ")" + more;
    assert text[1..] == tail && text[0] == '(';
    IndexOfAt(content, ')', more);
    assert tail[..|content|] == content && tail[|content| + 1..] == more;
  }

  lemma ListContent(conds: seq<Written>)
    requires PartSolid(List(conds))
    ensures var content := Join(CondWords(conds));
      ')' !in content && ParseItems(Words(content), false) == Conds(CondsAsRead(conds))
  {
    CondsReadAsWords(conds);
    CondWordsAreWords(conds);
    WordsOfJoin(CondWords(conds));
    JoinHasNoParen(CondWords(conds));
  }

  /** While no condition ends its word or its list, each is read on its own. */
  lemma {:induction false} PartsAreRead(parts: seq<Part>, resource: string, h: IfHeader,
                                        decode: string -> Option<string>)
    requires AllSolid(parts)
    ensures ParseFrom(Print(parts), resource, h, decode) == Collect(PartsAsRead(parts), resource, h, decode)
    decreases |parts|
  {
    if parts != [] {
      var more := Print(parts[1..]);
      assert PartSolid(parts[0]);
      assert AllSolid(parts[1..]);
      assert PartsAsRead(parts)[1..] == PartsAsRead(parts[1..]);
      match parts[0]
      case Tag(spelling) =>
        TagReadsBack(spelling, more, resource, h, decode);
        PartsAreRead(parts[1..], NormalizeTag(spelling, decode), h, decode);
      case List(conds) =>
        ListContent(conds);
        ListReadsBack(Join(CondWords(conds)), more, resource, h, decode);
        PartsAreRead(parts[1..], resource, WithList(h, resource, Conds(CondsAsRead(conds))), decode);
    }
  }

  lemma {:induction false} PrintEnds(parts: seq<Part>)
    requires parts != []
    ensures var s := Print(parts);
      s != [] && (s[0] == '<' || s[0] == '(') && (s[|s| - 1] == '>' || s[|s| - 1] == ')')
    ensures Print(parts)[0] == '<' <==> parts[0].Tag?
    decreases |parts|
  {
    var s := PrintPart(parts[0]);
    assert s[|s| - 1] == '>' || s[|s| - 1] == ')';
    if |parts| > 1 {
      PrintEnds(parts[1..]);
      var r := Print(parts[1..]);
      assert (s + r)[|s + r| - 1] == r[|r| - 1];
    } else {
      assert Print(parts[1..]) == "";
      assert s + "" == s;
    }
  }

  lemma PrintIsTrimmed(parts: seq<Part>)
    ensures Trim(Print(parts)) == Print(parts)
    ensures Tagged(Print(parts)) == if parts != [] && parts[0].Tag? then Print(parts) else "<*>" + Print(parts)
  {
    if parts != [] {
      PrintEnds(parts);
    }
    TrimByKeeps(Print(parts), IsSpace);
  }

  lemma WrittenIsRead(parts: seq<Part>, decode: string -> Option<string>)
    requires AllSolid(parts)
    ensures Parse(Print(parts), decode) == Collect(PartsAsRead(parts), ANY, NO_HEADER, decode)
  {
    PrintIsTrimmed(parts);
    PartsAreRead(parts, ANY, NO_HEADER, decode);
    AnyTagReadsBack(Print(parts), decode);
  }

  lemma ReadableIsSolid(parts: seq<Part>)
    requires TagsClosed(parts) && AllReadable(parts)
    ensures AllSolid(parts) && PartsAsRead(parts) == parts
  {
    forall i | 0 <= i < |parts| ensures PartSolid(parts[i]) && PartAsRead(parts[i]) == parts[i] {
      assert PartReadable(parts[i]);
      if parts[i].List? {
        forall k | 0 <= k < |parts[i].conds| ensures AsRead(parts[i].conds[k]) == parts[i].conds[k] {
          CondReadsBackIff(parts[i].conds[k]);
        }
        assert CondsAsRead(parts[i].conds) == parts[i].conds;
      }
    }
  }

  /** Parsing what was written collects exactly the parts written, starting from `*`. */
  lemma WrittenReadsBack(parts: seq<Part>, decode: string -> Option<string>)
    requires TagsClosed(parts) && AllReadable(parts)
    ensures Parse(Print(parts), decode) == Collect(parts, ANY, NO_HEADER, decode)
  {
    ReadableIsSolid(parts);
    WrittenIsRead(parts, decode);
  }

  lemma AnyTagReadsBack(more: string, decode: string -> Option<string>)
    ensures ParseFrom("<*>" + more, ANY, NO_HEADER, decode) == ParseFrom(more, ANY, NO_HEADER, decode)
  {
    TagReadsBack(ANY, more, ANY, NO_HEADER, decode);
    assert "<" + ANY + ">" + more == "<*>" + more;
  }

  lemma {:induction false} AddListFinds(entries: seq<Entry>, resource: string, list: seq<Cond>, other: string)
    ensures FindEntry(AddList(entries, resource, list), other) ==
      if other != resource then FindEntry(entries, other)
      else match FindEntry(entries, resource)
           case None => Some([list])
           case Some(lists) => Some(lists + [list])
    decreases |entries|
  {
    if entries != [] {
      if entries[0].resource != resource {
        AddListFinds(entries[1..], resource, list, other);
        assert AddList(entries, resource, list)[1..] == AddList(entries[1..], resource, list);
      } else {
        assert AddList(entries, resource, list)[1..] == entries[1..];
      }
    }
  }

  lemma TagHasNoToken(parts: seq<Part>)
    requires parts != [] && parts[0].Tag?
    ensures WrittenTokens(parts) == WrittenTokens(parts[1..])
  {
  }

  lemma {:induction false} CollectTokens(parts: seq<Part>, current: string, h: IfHeader,
                                         decode: string -> Option<string>)
    ensures Collect(parts, current, h, decode).tokens == h.tokens + WrittenTokens(parts)
    decreases |parts|
  {
    if parts == [] {
      assert h.tokens + [] == h.tokens;
    } else {
      match parts[0]
      case Tag(spelling) =>
        CollectTokens(parts[1..], NormalizeTag(spelling, decode), h, decode);
        TagHasNoToken(parts);
      case List(conds) =>
        var own := TokensOf(Conds(conds));
        CollectTokens(parts[1..], current, WithList(h, current, Conds(conds)), decode);
        Regroup(h.tokens, own, WrittenTokens(parts[1..]));
    }
  }

  function Joined(before: Option<seq<seq<Cond>>>, added: seq<seq<Cond>>): Option<seq<seq<Cond>>> {
    if added == [] then before
    else Some((if before.Some? then before.value else []) + added)
  }

  lemma JoinedStep(before: Option<seq<seq<Cond>>>, list: seq<Cond>, more: seq<seq<Cond>>)
    ensures Joined(Some((if before.Some? then before.value else []) + [list]), more) == Joined(before, [list] + more)
  {
    var own := if before.Some? then before.value else [];
    assert own + [list] + more == own + ([list] + more);
    assert more == [] ==> [list] + more == [list];
  }

  /** What collecting the parts adds to a resource: its lists, in order. */
  lemma {:induction false} CollectFinds(parts: seq<Part>, current: string, h: IfHeader, resource: string,
                                        decode: string -> Option<string>)
    ensures FindEntry(Collect(parts, current, h, decode).entries, resource)
         == Joined(FindEntry(h.entries, resource), ListsFor(parts, current, resource, decode))
    decreases |parts|
  {
    if parts != [] {
      match parts[0]
      case Tag(spelling) => CollectFinds(parts[1..], NormalizeTag(spelling, decode), h, resource, decode);
      case List(conds) =>
        var list := Conds(conds);
        AddListFinds(h.entries, current, list, resource);
        CollectFinds(parts[1..], current, WithList(h, current, list), resource, decode);
        var more := ListsFor(parts[1..], current, resource, decode);
        JoinedStep(FindEntry(h.entries, resource), list, more);
        assert [] + [list] == [list] && [] + more == more;
    }
  }

  /** The lists a written header has for a resource. */
  function WrittenLists(parts: seq<Part>, resource: string, decode: string -> Option<string>): Option<seq<seq<Cond>>> {
    var lists := ListsFor(parts, ANY, resource, decode);
    if lists == [] then None else Some(lists)
  }

  lemma CollectGives(parts: seq<Part>, resource: string, decode: string -> Option<string>)
    ensures FindEntry(Collect(parts, ANY, NO_HEADER, decode).entries, resource) == WrittenLists(parts, resource, decode)
  {
    CollectFinds(parts, ANY, NO_HEADER, resource, decode);
    assert [] + ListsFor(parts, ANY, resource, decode) == ListsFor(parts, ANY, resource, decode);
  }

  /** The round trip: reading a readable header gives every resource its lists in order and every
      token in order. */
  lemma RoundTrip(parts: seq<Part>, resource: string, decode: string -> Option<string>)
    requires TagsClosed(parts) && AllReadable(parts)
    ensures var h := Parse(Print(parts), decode);
      h.tokens == WrittenTokens(parts) && FindEntry(h.entries, resource) == WrittenLists(parts, resource, decode)
  {
    WrittenReadsBack(parts, decode);
    CollectGives(parts, resource, decode);
    CollectTokens(parts, ANY, NO_HEADER, decode);
    assert [] + WrittenTokens(parts) == WrittenTokens(parts);
  }

  // --- the canonical header -------------------------------------------------------------

  /** The weak frame: every tag that was read can be written in it. */
  function Weakly(list: seq<Cond>): (r: seq<Written>)
    ensures |r| == |list| && forall i :: 0 <= i < |list| ==> r[i] == Written(list[i], true)
  {
    seq(|list|, i requires 0 <= i < |list| => Written(list[i], true))
  }

  function ListParts(lists: seq<seq<Cond>>): (r: seq<Part>)
    ensures |r| == |lists| && forall i :: 0 <= i < |lists| ==> r[i] == List(Weakly(lists[i]))
  {
    seq(|lists|, i requires 0 <= i < |lists| => List(Weakly(lists[i])))
  }

  /** The canonical way to write parsed entries: each resource once, then its lists. */
  function Canonical(entries: seq<Entry>): seq<Part>
    decreases |entries|
  {
    if entries == [] then []
    else [Tag(entries[0].resource)] + ListParts(entries[0].lists) + Canonical(entries[1..])
  }

  predicate HasResource(entries: seq<Entry>, resource: string) {
    exists i :: 0 <= i < |entries| && entries[i].resource == resource
  }

  /** A resource that reads as it is spelled. */
  predicate Settled(resource: string, decode: string -> Option<string>) {
    '>' !in resource && NormalizeTag(resource, decode) == resource
  }

  /** Entries as they are read, whose resources read as they are spelled. */
  predicate Writable(entries: seq<Entry>, decode: string -> Option<string>) {
    AllTidy(entries) && forall i :: 0 <= i < |entries| ==> Settled(entries[i].resource, decode)
  }

  lemma {:induction false} AddListAppends(entries: seq<Entry>, resource: string, done: seq<seq<Cond>>, list: seq<Cond>)
    requires !HasResource(entries, resource)
    ensures AddList(entries, resource, list) == entries + [Entry(resource, [list])]
    ensures AddList(entries + [Entry(resource, done)], resource, list) == entries + [Entry(resource, done + [list])]
    decreases |entries|
  {
    if entries == [] {
      assert [] + [Entry(resource, done)] == [Entry(resource, done)];
    } else {
      var rest := entries[1..];
      assert entries[0].resource != resource;
      assert !HasResource(rest, resource) by {
        assert forall i :: 0 <= i < |rest| ==> rest[i] == entries[i + 1];
      }
      AddListAppends(rest, resource, done, list);
      assert (entries + [Entry(resource, done)])[1..] == rest + [Entry(resource, done)];
      assert entries == [entries[0]] + rest;
    }
  }

  /** Collecting the rest of one resource's lists. */
  lemma {:induction false} CollectLists(lists: seq<seq<Cond>>, more: seq<Part>, entries: seq<Entry>, resource: string,
                                        done: seq<seq<Cond>>, tokens: seq<string>, decode: string -> Option<string>)
    requires !HasResource(entries, resource) && done != []
    ensures var h := IfHeader(entries + [Entry(resource, done)], tokens);
      Collect(ListParts(lists) + more, resource, h, decode).entries
        == Collect(more, resource, IfHeader(entries + [Entry(resource, done + lists)], []), decode).entries
    decreases |lists|
  {
    var h := IfHeader(entries + [Entry(resource, done)], tokens);
    if lists == [] {
      assert ListParts(lists) + more == more && done + lists == done;
      EntriesIgnoreTokens(more, resource, h, IfHeader(h.entries, []), decode);
    } else {
      FirstList(lists, more);
      AddListAppends(entries, resource, done, lists[0]);
      CollectLists(lists[1..], more, entries, resource, done + [lists[0]], tokens + TokensOf(lists[0]), decode);
      Regroup(done, [lists[0]], lists[1..]);
    }
  }

  lemma FirstList(lists: seq<seq<Cond>>, more: seq<Part>)
    requires lists != []
    ensures var parts := ListParts(lists) + more;
      parts != [] && parts[0] == List(Weakly(lists[0])) && parts[1..] == ListParts(lists[1..]) + more
    ensures Conds(Weakly(lists[0])) == lists[0] && [lists[0]] + lists[1..] == lists
  {
    assert Conds(Weakly(lists[0])) == lists[0];
  }

  lemma {:induction false} EntriesIgnoreTokens(parts: seq<Part>, current: string, h: IfHeader, g: IfHeader,
                                               decode: string -> Option<string>)
    requires h.entries == g.entries
    ensures Collect(parts, current, h, decode).entries == Collect(parts, current, g, decode).entries
    decreases |parts|
  {
    if parts != [] {
      match parts[0]
      case Tag(spelling) => EntriesIgnoreTokens(parts[1..], NormalizeTag(spelling, decode), h, g, decode);
      case List(conds) =>
        EntriesIgnoreTokens(parts[1..], current, WithList(h, current, Conds(conds)),
                            WithList(g, current, Conds(conds)), decode);
    }
  }

  /** Collecting one canonical entry for a resource not seen yet. */
  lemma CollectEntry(before: seq<Entry>, e: Entry, more: seq<Part>, current: string, decode: string -> Option<string>)
    requires !HasResource(before, e.resource) && e.lists != [] && NormalizeTag(e.resource, decode) == e.resource
    ensures Collect([Tag(e.resource)] + ListParts(e.lists) + more, current, IfHeader(before, []), decode).entries
         == Collect(more, e.resource, IfHeader(before + [e], []), decode).entries
  {
    var tail := ListParts(e.lists) + more;
    Regroup([Tag(e.resource)], ListParts(e.lists), more);
    assert ([Tag(e.resource)] + tail)[1..] == tail;
    FirstList(e.lists, more);
    AddListAppends(before, e.resource, [], e.lists[0]);
    CollectLists(e.lists[1..], more, before, e.resource, [e.lists[0]], [] + TokensOf(e.lists[0]), decode);
  }

  lemma WritableHead(before: seq<Entry>, entries: seq<Entry>, decode: string -> Option<string>)
    requires entries != [] && Writable(before + entries, decode)
    ensures var e := entries[0];
      !HasResource(before, e.resource) && e.lists != [] && NormalizeTag(e.resource, decode) == e.resource
    ensures before + [entries[0]] + entries[1..] == before + entries
  {
    var all := before + entries;
    assert all[|before|] == entries[0] && EntryTidy(all[|before|]) && Settled(all[|before|].resource, decode);
    assert forall i :: 0 <= i < |before| ==> all[i] == before[i];
  }

  lemma {:induction false} CollectCanonical(before: seq<Entry>, entries: seq<Entry>, current: string,
                                            decode: string -> Option<string>)
    requires Writable(before + entries, decode)
    ensures Collect(Canonical(entries), current, IfHeader(before, []), decode).entries == before + entries
    decreases |entries|
  {
    if entries == [] {
      assert before + entries == before;
    } else {
      WritableHead(before, entries, decode);
      CollectEntry(before, entries[0], Canonical(entries[1..]), current, decode);
      CollectCanonical(before + [entries[0]], entries[1..], entries[0].resource, decode);
    }
  }

  lemma BothReadable(a: seq<Part>, b: seq<Part>)
    requires TagsClosed(a) && AllReadable(a) && TagsClosed(b) && AllReadable(b)
    ensures TagsClosed(a + b) && AllReadable(a + b)
  {
  }

  lemma EntryReadable(e: Entry, decode: string -> Option<string>)
    requires EntryTidy(e) && Settled(e.resource, decode)
    ensures var parts := [Tag(e.resource)] + ListParts(e.lists); TagsClosed(parts) && AllReadable(parts)
  {
    forall i | 0 <= i < |e.lists| ensures PartReadable(ListParts(e.lists)[i]) {
      assert TidyList(e.lists[i]);
    }
    BothReadable([Tag(e.resource)], ListParts(e.lists));
  }

  lemma {:induction false} CanonicalReadable(entries: seq<Entry>, decode: string -> Option<string>)
    requires Writable(entries, decode)
    ensures TagsClosed(Canonical(entries)) && AllReadable(Canonical(entries))
    decreases |entries|
  {
    if entries != [] {
      assert EntryTidy(entries[0]) && Settled(entries[0].resource, decode);
      EntryReadable(entries[0], decode);
      CanonicalReadable(entries[1..], decode);
      BothReadable([Tag(entries[0].resource)] + ListParts(entries[0].lists), Canonical(entries[1..]));
    }
  }

  /** The tokens of entries, in order. */
  function EntryTokens(entries: seq<Entry>): seq<string>
    decreases |entries|
  {
    if entries == [] then [] else ListTokens(entries[0].lists) + EntryTokens(entries[1..])
  }

  function ListTokens(lists: seq<seq<Cond>>): seq<string>
    decreases |lists|
  {
    if lists == [] then [] else TokensOf(lists[0]) + ListTokens(lists[1..])
  }

  lemma {:induction false} ListPartsTokens(lists: seq<seq<Cond>>, more: seq<Part>)
    ensures WrittenTokens(ListParts(lists) + more) == ListTokens(lists) + WrittenTokens(more)
    decreases |lists|
  {
    if lists == [] {
      assert ListParts(lists) + more == more && [] + WrittenTokens(more) == WrittenTokens(more);
    } else {
      FirstList(lists, more);
      ListPartsTokens(lists[1..], more);
      Regroup(TokensOf(lists[0]), ListTokens(lists[1..]), WrittenTokens(more));
    }
  }

  lemma {:induction false} CanonicalTokens(entries: seq<Entry>)
    ensures WrittenTokens(Canonical(entries)) == EntryTokens(entries)
    decreases |entries|
  {
    if entries != [] {
      var lists, more := ListParts(entries[0].lists), Canonical(entries[1..]);
      CanonicalTokens(entries[1..]);
      Regroup([Tag(entries[0].resource)], lists, more);
      assert ([Tag(entries[0].resource)] + (lists + more))[1..] == lists + more;
      TagHasNoToken([Tag(entries[0].resource)] + (lists + more));
      ListPartsTokens(entries[0].lists, more);
    }
  }

  /** Writing entries canonically and reading them again gives the same entries, and their tokens in order. */
  lemma CanonicalRoundTrip(entries: seq<Entry>, decode: string -> Option<string>)
    requires Writable(entries, decode)
    ensures Parse(Print(Canonical(entries)), decode) == IfHeader(entries, EntryTokens(entries))
  {
    CanonicalReadable(entries, decode);
    assert [] + entries == entries && [] + EntryTokens(entries) == EntryTokens(entries);
    CollectCanonical([], entries, ANY, decode);
    CollectTokens(Canonical(entries), ANY, NO_HEADER, decode);
    CanonicalTokens(entries);
    WrittenReadsBack(Canonical(entries), decode);
  }

  // --- what is read from any text -------------------------------------------------------

  /** What adding a list does to the entries: one gets it, or a new one comes last. */
  lemma {:induction false} AddListShape(entries: seq<Entry>, resource: string, list: seq<Cond>)
    ensures var r := AddList(entries, resource, list); var n := |entries|;
      && n <= |r| <= n + 1
      && (forall i :: 0 <= i < n ==> r[i].resource == entries[i].resource
                                     && (r[i].lists == entries[i].lists || r[i].lists == entries[i].lists + [list]))
      && (|r| > n ==> r[n] == Entry(resource, [list]) && !HasResource(entries, resource))
    decreases |entries|
  {
    if entries != [] && entries[0].resource != resource {
      AddListShape(entries[1..], resource, list);
      assert forall i :: 1 <= i < |entries| ==> entries[i] == entries[1..][i - 1];
    }
  }

  /** Distinct resources, each with a list, and tidy conditions. */
  predicate AllTidy(entries: seq<Entry>) {
    && (forall i :: 0 <= i < |entries| ==> EntryTidy(entries[i]))
    && (forall i, j :: 0 <= i < j < |entries| ==> entries[i].resource != entries[j].resource)
  }

  predicate EntryTidy(e: Entry) {
    e.lists != [] && forall k :: 0 <= k < |e.lists| ==> TidyList(e.lists[k])
  }

  lemma AddListTidy(entries: seq<Entry>, resource: string, list: seq<Cond>)
    requires AllTidy(entries) && TidyList(list)
    ensures AllTidy(AddList(entries, resource, list))
  {
    AddListShape(entries, resource, list);
  }

  lemma {:induction false} ItemsAreTidy(items: seq<string>, negated: bool)
    requires forall i :: 0 <= i < |items| ==> CondWord(items[i])
    ensures TidyList(ParseItems(items, negated))
    decreases |items|
  {
    if items != [] {
      if IsNot(items[0]) {
        ItemsAreTidy(items[1..], true);
      } else {
        ItemsAreTidy(items[1..], false);
        ItemIsTidy(items[0], negated);
      }
    }
  }

  lemma ContentIsTidy(content: string)
    requires ')' !in content
    ensures TidyList(ParseItems(Words(content), false))
  {
    WordsAreWords(content);
    ItemsAreTidy(Words(content), false);
  }

  /** Each step of the reading keeps the conditions tidy. */
  lemma {:induction false} ParseFromTidy(rest: string, resource: string, h: IfHeader, decode: string -> Option<string>)
    requires AllTidy(h.entries)
    ensures AllTidy(ParseFrom(rest, resource, h, decode).entries)
    decreases |rest|
  {
    if rest != [] {
      var tail := rest[1..];
      if rest[0] == '<' {
        var end := IndexOf(tail, '>');
        if end == |tail| {
          ParseFromTidy(tail, resource, h, decode);
        } else {
          ParseFromTidy(tail[end + 1..], NormalizeTag(tail[..end], decode), h, decode);
        }
      } else if rest[0] == '(' {
        var end := IndexOf(tail, ')');
        if end < |tail| {
          var list := ParseItems(Words(tail[..end]), false);
          ContentIsTidy(tail[..end]);
          AddListTidy(h.entries, resource, list);
          ParseFromTidy(tail[end + 1..], resource, WithList(h, resource, list), decode);
        }
      } else {
        ParseFromTidy(tail, resource, h, decode);
      }
    }
  }

  /** Every text gives entries with distinct resources, with lists, and with tidy conditions. */
  lemma ParsedIsTidy(raw: string, decode: string -> Option<string>)
    ensures AllTidy(Parse(raw, decode).entries)
  {
    ParseFromTidy(Tagged(raw), ANY, NO_HEADER, decode);
  }

  /** The entries read from any text at all are writable exactly when its tags name resources that read
      as they are spelled; writing them canonically and reading again then keeps them. */
  lemma ParsedIsWritable(raw: string, decode: string -> Option<string>)
    ensures var entries := Parse(raw, decode).entries;
      && (Writable(entries, decode) <==> forall i :: 0 <= i < |entries| ==> Settled(entries[i].resource, decode))
      && (Writable(entries, decode) ==> Parse(Print(Canonical(entries)), decode).entries == entries)
  {
    ParsedIsTidy(raw, decode);
    if Writable(Parse(raw, decode).entries, decode) {
      CanonicalRoundTrip(Parse(raw, decode).entries, decode);
    }
  }

  // --- exactly what reads back ----------------------------------------------------------

  lemma {:induction false} FoundIsTidy(entries: seq<Entry>, resource: string)
    requires AllTidy(entries)
    ensures var lists := FindEntry(entries, resource);
      lists.Some? ==> forall k :: 0 <= k < |lists.value| ==> TidyList(lists.value[k])
    decreases |entries|
  {
    if entries != [] && entries[0].resource != resource {
      FoundIsTidy(entries[1..], resource);
    }
  }

  /** Two headers with the same tags that give each resource the same lists have the same lists. */
  lemma {:induction false} SameListsFor(parts: seq<Part>, others: seq<Part>, current: string, i: nat,
                                        decode: string -> Option<string>)
    requires |parts| == |others| && forall j :: 0 <= j < |parts| ==> SameTag(parts[j], others[j])
    requires forall r :: ListsFor(parts, current, r, decode) == ListsFor(others, current, r, decode)
    requires i < |parts| && parts[i].List? && others[i].List?
    ensures Conds(parts[i].conds) == Conds(others[i].conds)
    decreases |parts|
  {
    assert SameTag(parts[0], others[0]);
    match parts[0]
    case Tag(spelling) =>
      var next := NormalizeTag(spelling, decode);
      forall r ensures ListsFor(parts[1..], next, r, decode) == ListsFor(others[1..], next, r, decode) {
        assert ListsFor(parts, current, r, decode) == ListsFor(others, current, r, decode);
      }
      SameListsFor(parts[1..], others[1..], next, i - 1, decode);
    case List(conds) =>
      assert ListsFor(parts, current, current, decode)[0] == Conds(conds);
      forall r ensures ListsFor(parts[1..], current, r, decode) == ListsFor(others[1..], current, r, decode) {
        RestOfLists(parts, current, r, decode);
        RestOfLists(others, current, r, decode);
      }
      if i > 0 {
        SameListsFor(parts[1..], others[1..], current, i - 1, decode);
      }
  }

  predicate SameTag(p: Part, q: Part) {
    p == q || (p.List? && q.List?)
  }

  lemma RestOfLists(parts: seq<Part>, current: string, resource: string, decode: string -> Option<string>)
    requires parts != [] && parts[0].List?
    ensures var all := ListsFor(parts, current, resource, decode);
      ListsFor(parts[1..], current, resource, decode) == if resource == current then all[1..] else all
  {
    var rest := ListsFor(parts[1..], current, resource, decode);
    assert [] + rest == rest && ([Conds(parts[0].conds)] + rest)[1..] == rest;
  }

  /** Every list written is among the lists of the resource in force. */
  lemma {:induction false} ListIsFor(parts: seq<Part>, current: string, i: nat, decode: string -> Option<string>)
    returns (resource: string, k: nat)
    requires i < |parts| && parts[i].List?
    ensures k < |ListsFor(parts, current, resource, decode)|
    ensures ListsFor(parts, current, resource, decode)[k] == Conds(parts[i].conds)
    decreases |parts|
  {
    if i == 0 {
      resource, k := current, 0;
    } else {
      match parts[0]
      case Tag(spelling) =>
        resource, k := ListIsFor(parts[1..], NormalizeTag(spelling, decode), i - 1, decode);
      case List(conds) =>
        resource, k := ListIsFor(parts[1..], current, i - 1, decode);
        RestOfLists(parts, current, resource, decode);
        if resource == current {
          k := k + 1;
        }
    }
  }

  ghost predicate ReadsBack(parts: seq<Part>, decode: string -> Option<string>) {
    forall r :: FindEntry(Parse(Print(parts), decode).entries, r) == WrittenLists(parts, r, decode)
  }

  /** What reads back is solid, because everything read is. */
  lemma ReadBackIsSolid(parts: seq<Part>, decode: string -> Option<string>)
    requires TagsClosed(parts) && ReadsBack(parts, decode)
    ensures AllSolid(parts)
  {
    forall i | 0 <= i < |parts| ensures PartSolid(parts[i]) {
      if parts[i].List? {
        var resource, k := ListIsFor(parts, ANY, i, decode);
        ParsedIsTidy(Print(parts), decode);
        FoundIsTidy(Parse(Print(parts), decode).entries, resource);
        assert FindEntry(Parse(Print(parts), decode).entries, resource) == WrittenLists(parts, resource, decode);
        assert TidyList(Conds(parts[i].conds));
        forall m | 0 <= m < |parts[i].conds| ensures Solid(parts[i].conds[m]) {
          assert Tidy(Conds(parts[i].conds)[m]);
        }
      }
    }
  }

  lemma ReadBackIsAsRead(parts: seq<Part>, i: nat, decode: string -> Option<string>)
    requires AllSolid(parts) && ReadsBack(parts, decode) && i < |parts| && parts[i].List?
    ensures Conds(CondsAsRead(parts[i].conds)) == Conds(parts[i].conds)
  {
    var others := PartsAsRead(parts);
    WrittenIsRead(parts, decode);
    forall r ensures ListsFor(parts, ANY, r, decode) == ListsFor(others, ANY, r, decode) {
      CollectGives(others, r, decode);
      assert FindEntry(Parse(Print(parts), decode).entries, r) == WrittenLists(parts, r, decode);
    }
    SameListsFor(parts, others, ANY, i, decode);
  }

  /** The exact condition, over all headers: every resource gets the lists written for it if and only if
      every condition written is readable. */
  lemma ReadsBackIff(parts: seq<Part>, decode: string -> Option<string>)
    requires TagsClosed(parts)
    ensures ReadsBack(parts, decode) <==> AllReadable(parts)
  {
    if ReadsBack(parts, decode) {
      ReadBackIsSolid(parts, decode);
      forall i | 0 <= i < |parts| ensures PartReadable(parts[i]) {
        if parts[i].List? {
          assert PartSolid(parts[i]);
          ReadBackIsAsRead(parts, i, decode);
          forall k | 0 <= k < |parts[i].conds| ensures Readable(parts[i].conds[k]) {
            assert Conds(CondsAsRead(parts[i].conds))[k] == Conds(parts[i].conds)[k];
            CondReadsBackIff(parts[i].conds[k]);
          }
        }
      }
    }
    if AllReadable(parts) {
      forall r ensures FindEntry(Parse(Print(parts), decode).entries, r) == WrittenLists(parts, r, decode) {
        RoundTrip(parts, r, decode);
      }
    }
  }

  /** One condition on its own. */
  lemma OneConditionIff(w: Written, decode: string -> Option<string>)
    ensures Parse(Print([List([w])]), decode).entries == [Entry(ANY, [[w.cond]])] <==> Readable(w)
  {
    var parts, entries := [List([w])], [Entry(ANY, [[w.cond]])];
    assert parts[1..] == [] && Conds([w]) == [w.cond] && entries[1..] == [];
    assert AllReadable(parts) <==> Readable(w) by {
      assert PartReadable(parts[0]) <==> Readable([w][0]);
    }
    forall r ensures FindEntry(entries, r) == WrittenLists(parts, r, decode) {
      assert ListsFor(parts, ANY, r, decode) == if r == ANY then [[w.cond]] else [];
    }
    ReadsBackIff(parts, decode);
    if Readable(w) {
      WrittenReadsBack(parts, decode);
    }
  }
}
