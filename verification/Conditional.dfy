/**
 The DAV `If:` header (section 10.4 of RFC 4918): its parser, in one pass over the text, and its
 evaluation against a resource.
 */
module Conditional {
  import opened Sequences
  import opened Text
  import Paths

  /** One condition of a list. */
  datatype Cond = Token(negated: bool, token: string) | Etag(negated: bool, etag: string)

  datatype Entry = Entry(resource: string, lists: seq<seq<Cond>>)

  datatype IfHeader = IfHeader(entries: seq<Entry>, tokens: seq<string>)

  const ANY: string := "*"

  // --- parsing --------------------------------------------------------------------------

  /** The index of the first `://`, or `|s|`. */
  function SchemeEnd(s: string): (i: nat)
    ensures i <= |s| && (i < |s| ==> i + 3 <= |s|)
  {
    if |s| < 3 then |s|
    else if s[..3] == "://" then 0
    else 1 + SchemeEnd(s[1..])
  }

  /** The path in a tagged resource: behind the host of a full address, or all of it. */
  function TagPath(tag: string): string {
    var i := SchemeEnd(tag);
    if i == |tag| then tag
    else
      var rest := tag[i + 3..];
      var j := IndexOf(rest, '/');
      if j == |rest| then "/" else rest[j..]
  }

  /** A tagged resource as a normalised path. `decode` is the percent-decoding of request paths. */
  function NormalizeTag(tag: string, decode: string -> Option<string>): string {
    if tag == ANY then ANY
    else
      match decode(TagPath(tag))
      case Some(decoded) => Paths.Normalize(decoded)
      case None => Paths.Normalize(TagPath(tag))
  }

  predicate IsTagFrame(c: char) {
    c == '"' || c == '[' || c == ']'
  }

  predicate IsAngle(c: char) {
    c == '<' || c == '>'
  }

  /** `trim_start_matches("W/")`. */
  function DropWeak(s: string): string {
    if "W/" <= s then DropWeak(s[2..]) else s
  }

  function ParseItem(item: string, negated: bool): Cond {
    if item != [] && item[0] == '[' then
      Etag(negated, TrimBy(DropWeak(TrimBy(item, IsTagFrame)), IsQuote))
    else
      Token(negated, TrimBy(item, IsAngle))
  }

  predicate IsNot(item: string) {
    EqIgnoreAsciiCase(item, "not")
  }

  /** The conditions a list's words stand for; `negated` when a `Not` came just before. */
  function ParseItems(items: seq<string>, negated: bool): seq<Cond>
    decreases |items|
  {
    if items == [] then []
    else if IsNot(items[0]) then ParseItems(items[1..], true)
    else [ParseItem(items[0], negated)] + ParseItems(items[1..], false)
  }

  function TokensOf(conds: seq<Cond>): seq<string>
    decreases |conds|
  {
    if conds == [] then []
    else (if conds[0].Token? then [conds[0].token] else []) + TokensOf(conds[1..])
  }

  /** Append a list to the entry of its resource, or start one. */
  function AddList(entries: seq<Entry>, resource: string, list: seq<Cond>): seq<Entry>
    decreases |entries|
  {
    if entries == [] then [Entry(resource, [list])]
    else if entries[0].resource == resource then
      [Entry(resource, entries[0].lists + [list])] + entries[1..]
    else [entries[0]] + AddList(entries[1..], resource, list)
  }

  function WithList(h: IfHeader, resource: string, list: seq<Cond>): IfHeader {
    IfHeader(AddList(h.entries, resource, list), h.tokens + TokensOf(list))
  }

  function ParseFrom(rest: string, resource: string, h: IfHeader, decode: string -> Option<string>): IfHeader
    decreases |rest|
  {
    if rest == [] then h
    else
      var tail := rest[1..];
      if rest[0] == '<' then
        var end := IndexOf(tail, '>');
        if end == |tail| then ParseFrom(tail, resource, h, decode)
        else ParseFrom(tail[end + 1..], NormalizeTag(tail[..end], decode), h, decode)
      else if rest[0] == '(' then
        var end := IndexOf(tail, ')');
        if end == |tail| then h
        else ParseFrom(tail[end + 1..], resource, WithList(h, resource, ParseItems(Words(tail[..end]), false)), decode)
      else ParseFrom(tail, resource, h, decode)
  }

  const NO_HEADER := IfHeader([], [])

  function Tagged(raw: string): string {
    var text := Trim(raw);
    if text != [] && text[0] == '<' then text else "<*>" + text
  }

  function Parse(raw: string, decode: string -> Option<string>): IfHeader {
    ParseFrom(Tagged(raw), ANY, NO_HEADER, decode)
  }

  lemma ItemsStep(items: seq<string>, i: nat, negated: bool)
    requires i < |items|
    ensures ParseItems(items[i..], negated) ==
      if IsNot(items[i]) then ParseItems(items[i + 1..], true)
      else [ParseItem(items[i], negated)] + ParseItems(items[i + 1..], false)
  {
    assert items[i..][1..] == items[i + 1..] && items[i..][0] == items[i];
  }

  lemma TokensOne(c: Cond)
    ensures TokensOf([c]) == if c.Token? then [c.token] else []
  {
    assert [c][1..] == [];
  }

  lemma {:induction false} TokensAppend(a: seq<Cond>, c: Cond)
    ensures TokensOf(a + [c]) == TokensOf(a) + if c.Token? then [c.token] else []
    decreases |a|
  {
    if a == [] {
      TokensOne(c);
      assert a + [c] == [c];
    } else {
      TailOfPush(a, c);
      TokensAppend(a[1..], c);
    }
  }

  /** The conditions of one list, pushed one by one. */
  method ReadList(content: string) returns (list: seq<Cond>, tokens: seq<string>)
    ensures list == ParseItems(Words(content), false)
    ensures tokens == TokensOf(list)
  {
    var items := Words(content);
    list, tokens := [], [];
    var negated := false;
    var i := 0;
    ghost var all := ParseItems(items, false);
    WholeTail(items);
    while i < |items|
      invariant 0 <= i <= |items|
      invariant list + ParseItems(items[i..], negated) == all
      invariant tokens == TokensOf(list)
    {
      ItemsStep(items, i, negated);
      if IsNot(items[i]) {
        negated := true;
      } else {
        var cond := ParseItem(items[i], negated);
        TokensAppend(list, cond);
        Regroup(list, [cond], ParseItems(items[i + 1..], false));
        if cond.Token? {
          tokens := tokens + [cond.token];
        }
        list := list + [cond];
        negated := false;
      }
      i := i + 1;
    }
  }

  /** A `<...>` in the text: the resource changes and reading goes on behind it. */
  lemma TagStep(text: string, i: nat, end: nat, resource: string, h: IfHeader, decode: string -> Option<string>)
    requires i < |text| && text[i] == '<'
    requires end == IndexOf(text[i + 1..], '>') < |text| - i - 1
    ensures ParseFrom(text[i..], resource, h, decode)
         == ParseFrom(text[i + end + 2..], NormalizeTag(text[i + 1..][..end], decode), h, decode)
  {
    assert text[i..][1..] == text[i + 1..] && text[i..][0] == text[i];
    assert text[i + 1..][end + 1..] == text[i + end + 2..];
  }

  /** A `(...)` in the text adds a list; an unclosed one ends the reading. */
  lemma ListStep(text: string, i: nat, end: nat, resource: string, h: IfHeader, decode: string -> Option<string>)
    requires i < |text| && text[i] == '('
    requires end == IndexOf(text[i + 1..], ')')
    ensures ParseFrom(text[i..], resource, h, decode) ==
      if end == |text| - i - 1 then h
      else ParseFrom(text[i + end + 2..], resource,
                     WithList(h, resource, ParseItems(Words(text[i + 1..][..end]), false)), decode)
  {
    assert text[i..][1..] == text[i + 1..] && text[i..][0] == text[i];
    assert end < |text| - i - 1 ==> text[i + 1..][end + 1..] == text[i + end + 2..];
  }

  /** Any other character, or an unclosed `<`, is passed over. */
  lemma SkipStep(text: string, i: nat, resource: string, h: IfHeader, decode: string -> Option<string>)
    requires i < |text| && text[i] != '('
    requires text[i] == '<' ==> IndexOf(text[i + 1..], '>') == |text| - i - 1
    ensures ParseFrom(text[i..], resource, h, decode) == ParseFrom(text[i + 1..], resource, h, decode)
  {
    assert text[i..][1..] == text[i + 1..] && text[i..][0] == text[i];
  }

  /** Read one parenthesised list into the header. */
  method PushList(h: IfHeader, resource: string, content: string) returns (r: IfHeader)
    ensures r == WithList(h, resource, ParseItems(Words(content), false))
  {
    var list, tokens := ReadList(content);
    r := IfHeader(AddList(h.entries, resource, list), h.tokens + tokens);
  }

  /** `IfHeader::parse`: one pass over the text. */
  method ParseHeader(raw: string, decode: string -> Option<string>) returns (h: IfHeader)
    ensures h == Parse(raw, decode)
  {
    h := ParseText(Tagged(raw), decode);
  }

  /** Read a list that opens at position `i`; an unclosed one ends the reading. */
  method ReadListPart(text: string, i: nat, resource: string, h: IfHeader, decode: string -> Option<string>)
    returns (next: nat, r: IfHeader, ended: bool)
    requires i < |text| && text[i] == '('
    ensures i < next <= |text|
    ensures ParseFrom(text[i..], resource, h, decode) ==
      if ended then r else ParseFrom(text[next..], resource, r, decode)
  {
    next, r := i + 1, h;
    var end := IndexOf(text[i + 1..], ')');
    ListStep(text, i, end, resource, h, decode);
    ended := end == |text| - i - 1;
    if !ended {
      next := i + end + 2;
      r := PushList(h, resource, text[i + 1..][..end]);
    }
  }

  /** Read on from position `i`: what is there changes the resource or the header, or ends the reading. */
  method ReadNext(text: string, i: nat, resource: string, h: IfHeader, decode: string -> Option<string>)
    returns (next: nat, about: string, r: IfHeader, ended: bool)
    requires i < |text|
    ensures i < next <= |text|
    ensures ParseFrom(text[i..], resource, h, decode) ==
      if ended then r else ParseFrom(text[next..], about, r, decode)
  {
    next, about, r, ended := i + 1, resource, h, false;
    if text[i] == '(' {
      next, r, ended := ReadListPart(text, i, resource, h, decode);
    } else {
      var end := IndexOf(text[i + 1..], '>');
      if text[i] == '<' && end < |text| - i - 1 {
        TagStep(text, i, end, resource, h, decode);
        next, about := i + end + 2, NormalizeTag(text[i + 1..][..end], decode);
      } else {
        SkipStep(text, i, resource, h, decode);
      }
    }
  }

  method ParseText(text: string, decode: string -> Option<string>) returns (h: IfHeader)
    ensures h == ParseFrom(text, ANY, NO_HEADER, decode)
  {
    h := NO_HEADER;
    var resource := ANY;
    var i := 0;
    WholeTail(text);
    while i < |text|
      invariant 0 <= i <= |text|
      invariant ParseFrom(text[i..], resource, h, decode) == ParseFrom(text, ANY, NO_HEADER, decode)
      decreases |text| - i
    {
      var ended;
      i, resource, h, ended := ReadNext(text, i, resource, h, decode);
      if ended {
        return;
      }
    }
  }

  // --- evaluation -----------------------------------------------------------------------

  predicate CondHolds(c: Cond, etag: Option<string>, lockTokens: seq<string>) {
    match c
    case Etag(negated, want) => (etag == Some(want)) != negated
    case Token(negated, token) => (token in lockTokens) != negated
  }

  predicate AllHold(conds: seq<Cond>, etag: Option<string>, lockTokens: seq<string>) {
    forall i :: 0 <= i < |conds| ==> CondHolds(conds[i], etag, lockTokens)
  }

  predicate SomeListHolds(lists: seq<seq<Cond>>, etag: Option<string>, lockTokens: seq<string>) {
    exists i :: 0 <= i < |lists| && AllHold(lists[i], etag, lockTokens)
  }

  function FindEntry(entries: seq<Entry>, resource: string): Option<seq<seq<Cond>>>
    decreases |entries|
  {
    if entries == [] then None
    else if entries[0].resource == resource then Some(entries[0].lists)
    else FindEntry(entries[1..], resource)
  }

  /** `IfHeader::test`. */
  predicate Test(h: IfHeader, path: string, etag: Option<string>, lockTokens: seq<string>) {
    var own := FindEntry(h.entries, Paths.Normalize(path));
    var lists := if own.Some? then own else FindEntry(h.entries, ANY);
    lists.None? || SomeListHolds(lists.value, etag, lockTokens)
  }
}
