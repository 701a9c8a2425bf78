/**
 Cached PROPFIND answers on the wire: a listing deflated once into a gzip prefix that ends in a
 sync flush, completed per answer with a deflated tail and a gzip trailer (section 2.3 of
 RFC 1952), or inflated back for clients that do not take gzip.
 */
module Listing {
  import opened Sequences
  import opened Text

  type Byte = b: nat | b < 256
  type Bytes = seq<Byte>

  /** A unit of the answer: a plain byte (gzip framing), or a literal, a sync flush or the final
      block of the deflate stream. Deflate itself is not modelled bit by bit: codes stand for their
      meaning, and the compressor and decompressor are known only through `CallOk` and `InflateOk`. */
  datatype Code = Raw(b: Byte) | Literal(b: Byte) | SyncMark | FinalMark

  function Raws(s: Bytes): (r: seq<Code>)
    ensures |r| == |s| && forall i :: 0 <= i < |s| ==> r[i] == Raw(s[i])
  {
    seq(|s|, i requires 0 <= i < |s| => Raw(s[i]))
  }

  function Literals(s: Bytes): (r: seq<Code>)
    ensures |r| == |s| && forall i :: 0 <= i < |s| ==> r[i] == Literal(s[i])
  {
    seq(|s|, i requires 0 <= i < |s| => Literal(s[i]))
  }

  /** The bytes the literals of a stream stand for. */
  function Plain(d: seq<Code>): Bytes {
    if d == [] then []
    else if d[0].Literal? then [d[0].b] + Plain(d[1..])
    else Plain(d[1..])
  }

  /** A deflate stream without a final block: another stream may follow it. */
  predicate Open(d: seq<Code>) {
    forall i :: 0 <= i < |d| ==> d[i].Literal? || d[i].SyncMark?
  }

  lemma {:induction false} PlainAppend(a: seq<Code>, b: seq<Code>)
    ensures Plain(a + b) == Plain(a) + Plain(b)
    decreases |a|
  {
    if a == [] {
      assert a + b == b;
    } else {
      var whole := a + b;
      assert whole[0] == a[0] && whole[1..] == a[1..] + b;
      PlainAppend(a[1..], b);
      if a[0].Literal? {
        assert Plain(a) == [a[0].b] + Plain(a[1..]);
      } else {
        assert Plain(a) == Plain(a[1..]);
      }
    }
  }

  lemma {:induction false} PlainLiterals(s: Bytes)
    ensures Plain(Literals(s)) == s
  {
    if s != [] {
      assert Literals(s)[1..] == Literals(s[1..]);
      PlainLiterals(s[1..]);
    }
  }

  // --- CRC-32 ---------------------------------------------------------------------------

  function CrcBits(c: bv32, n: nat): bv32
    decreases n
  {
    if n == 0 then c
    else CrcBits(if c & 1 == 1 then (c >> 1) ^ 0xEDB8_8320 else c >> 1, n - 1)
  }

  function CrcStep(c: bv32, b: Byte): bv32 {
    CrcBits(c ^ (b as bv32), 8)
  }

  function Fold<S>(step: (S, Byte) -> S, s: S, data: Bytes): S
    decreases |data|
  {
    if data == [] then s else Fold(step, step(s, data[0]), data[1..])
  }

  function CrcFinal(c: bv32): bv32 {
    c ^ 0xFFFF_FFFF
  }

  /** An incremental hash: where it starts, how it takes a byte, and what is read off its state. Entries
      and answers below hold for any hash the writer and the reader share, CRC-32 in particular. */
  datatype Hash = Hash(start: bv32, step: (bv32, Byte) -> bv32, finish: bv32 -> bv32)

  const CRC_32 := Hash(0xFFFF_FFFF, CrcStep, CrcFinal)

  /** The hash state after `data`. */
  function Update(h: Hash, state: bv32, data: Bytes): bv32 {
    Fold(h.step, state, data)
  }

  lemma {:induction false} FoldAppend<S>(step: (S, Byte) -> S, s: S, a: Bytes, b: Bytes)
    ensures Fold(step, s, a + b) == Fold(step, Fold(step, s, a), b)
    decreases |a|
  {
    if a == [] {
      assert a + b == b;
    } else {
      assert (a + b)[1..] == a[1..] + b;
      FoldAppend(step, step(s, a[0]), a[1..], b);
    }
  }

  lemma FoldThree<S>(step: (S, Byte) -> S, s: S, a: Byte, b: Byte, c: Byte)
    ensures Fold(step, s, [a, b, c]) == step(step(step(s, a), b), c)
  {
    assert [a, b, c][1..] == [b, c] && [b, c][1..] == [c] && [c][1..] == [];
    assert Fold(step, step(step(s, a), b), [c]) == step(step(step(s, a), b), c);
  }

  lemma CheckSteps123()
    ensures CrcStep(0xFFFF_FFFF, 0x31) == 0x7C23_1048 && CrcStep(0x7C23_1048, 0x32) == 0xB0AC_BB32
    ensures CrcStep(0xB0AC_BB32, 0x33) == 0x77B7_9C2D
  {
  }

  lemma CheckSteps456()
    ensures CrcStep(0x77B7_9C2D, 0x34) == 0x641C_1F5C && CrcStep(0x641C_1F5C, 0x35) == 0x340A_C5E3
    ensures CrcStep(0x340A_C5E3, 0x36) == 0xF68D_2C9E
  {
  }

  lemma CheckSteps789()
    ensures CrcStep(0xF68D_2C9E, 0x37) == 0xAFFC_9660 && CrcStep(0xAFFC_9660, 0x38) == 0x651F_2550
    ensures CrcStep(0x651F_2550, 0x39) == 0x340B_C6D9
  {
  }

  lemma ThreeSteps(s: bv32, a: Byte, b: Byte, c: Byte, s1: bv32, s2: bv32, s3: bv32)
    requires CrcStep(s, a) == s1 && CrcStep(s1, b) == s2 && CrcStep(s2, c) == s3
    ensures Fold(CrcStep, s, [a, b, c]) == s3
  {
    FoldThree(CrcStep, s, a, b, c);
  }

  lemma NineBytes<S>(step: (S, Byte) -> S, s: S, data: Bytes)
    requires |data| == 9
    ensures Fold(step, s, data) ==
      var a := Fold(step, s, [data[0], data[1], data[2]]);
      var b := Fold(step, a, [data[3], data[4], data[5]]); Fold(step, b, [data[6], data[7], data[8]])
  {
    var x, y, z := [data[0], data[1], data[2]], [data[3], data[4], data[5]], [data[6], data[7], data[8]];
    assert data == x + (y + z);
    FoldAppend(step, s, x, y + z);
    FoldAppend(step, Fold(step, s, x), y, z);
  }

  /** The check value of CRC-32: its hash of the text "123456789". */
  lemma CrcCheck(text: Bytes)
    requires text == [0x31, 0x32, 0x33, 0x34, 0x35, 0x36, 0x37, 0x38, 0x39]
    ensures CRC_32.finish(Update(CRC_32, CRC_32.start, text)) == 0xCBF4_3926
  {
    CheckSteps123();
    ThreeSteps(0xFFFF_FFFF, 0x31, 0x32, 0x33, 0x7C23_1048, 0xB0AC_BB32, 0x77B7_9C2D);
    CheckSteps456();
    ThreeSteps(0x77B7_9C2D, 0x34, 0x35, 0x36, 0x641C_1F5C, 0x340A_C5E3, 0xF68D_2C9E);
    CheckSteps789();
    ThreeSteps(0xF68D_2C9E, 0x37, 0x38, 0x39, 0xAFFC_9660, 0x651F_2550, 0x340B_C6D9);
    NineBytes(CrcStep, 0xFFFF_FFFF, text);
  }

  /** The low `k` bytes, lowest first. */
  function LittleEndian(n: nat, k: nat): (r: Bytes)
    ensures |r| == k
  {
    if k == 0 then [] else [n % 0x100] + LittleEndian(n / 0x100, k - 1)
  }

  predicate AllRaw(s: seq<Code>) {
    forall i :: 0 <= i < |s| ==> s[i].Raw?
  }

  /** The number four bytes stand for, the lowest first. */
  function Four(s: seq<Code>): nat
    requires |s| == 4 && AllRaw(s)
  {
    s[0].b + 0x100 * s[1].b + 0x1_0000 * s[2].b + 0x100_0000 * s[3].b
  }

  lemma FourBytes(n: nat)
    requires n < 0x1_0000_0000
    ensures LittleEndian(n, 4) == [n % 0x100, n / 0x100 % 0x100, n / 0x100 / 0x100 % 0x100, n / 0x100 / 0x100 / 0x100]
  {
    var a, b, c := n / 0x100, n / 0x100 / 0x100, n / 0x100 / 0x100 / 0x100;
    assert LittleEndian(c, 1) == [c];
    assert LittleEndian(b, 2) == [b % 0x100] + LittleEndian(c, 1);
    assert LittleEndian(a, 3) == [a % 0x100] + LittleEndian(b, 2);
  }

  lemma FourReads(n: nat)
    requires n < 0x1_0000_0000
    ensures AllRaw(Raws(LittleEndian(n, 4))) && Four(Raws(LittleEndian(n, 4))) == n
  {
    FourBytes(n);
    var a, b, c := n / 0x100, n / 0x100 / 0x100, n / 0x100 / 0x100 / 0x100;
    assert n == n % 0x100 + 0x100 * a && a == a % 0x100 + 0x100 * b && b == b % 0x100 + 0x100 * c;
  }

  // --- the compressor -------------------------------------------------------------------

  /** A compressor between two calls: what it took in, what of it it still holds back, and the
      output it has ready but has not handed out. */
  datatype Deflater = Deflater(taken: Bytes, held: Bytes, queue: seq<Code>)

  /** What is promised of a compressor that has handed out `given`. */
  ghost predicate Sound(d: Deflater, given: seq<Code>) {
    Open(given + d.queue) && Plain(given + d.queue) + d.held == d.taken
  }

  function Debt(d: Deflater): nat {
    |d.queue| + |d.held|
  }

  /** One call: takes a prefix of the input and hands out at most `room` codes. Room left over means
      nothing is waiting in the queue. A sync call that had nothing queued to drain and leaves room
      has compressed everything held back. At most a sync mark is added to what is owed. */
  ghost predicate CallOk(d: Deflater, input: Bytes, room: nat, sync: bool, took: nat, out: seq<Code>, r: Deflater) {
    && took <= |input| && r.taken == d.taken + input[..took]
    && |out| <= room
    && (forall given :: Sound(d, given) ==> Sound(r, given + out))
    && (|out| < room ==> r.queue == [])
    && (sync && input == [] && d.queue == [] && |out| < room ==> r.held == [])
    && (sync && input == [] ==> |r.held| <= |d.held|)
    && Debt(r) + |out| <= Debt(d) + took + if sync then 1 else 0
  }

  lemma DrainIsOk(d: Deflater, input: Bytes, room: nat, sync: bool, n: nat)
    requires d.queue != [] && n == if |d.queue| <= room then |d.queue| else room
    ensures CallOk(d, input, room, sync, 0, d.queue[..n], d.(queue := d.queue[n..]))
  {
    assert d.taken + input[..0] == d.taken;
    forall given | Sound(d, given) ensures Sound(d.(queue := d.queue[n..]), given + d.queue[..n]) {
      assert (given + d.queue[..n]) + d.queue[n..] == given + d.queue;
    }
  }

  lemma TakeIsOk(d: Deflater, input: Bytes, room: nat)
    requires d.queue == []
    ensures CallOk(d, input, room, false, |input|, [], d.(taken := d.taken + input, held := d.held + input))
  {
    WholePrefix(input);
    forall given | Sound(d, given) ensures Sound(d.(taken := d.taken + input, held := d.held + input), given + []) {
      assert given + [] + d.queue == given + d.queue;
    }
  }

  lemma FlushIsSound(d: Deflater, given: seq<Code>, out: seq<Code>, queue: seq<Code>)
    requires Sound(d, given) && d.queue == [] && out + queue == Literals(d.held) + [SyncMark]
    ensures Sound(Deflater(d.taken, [], queue), given + out)
  {
    assert given + out + queue == given + (Literals(d.held) + [SyncMark]) && given + d.queue == given;
    PlainAppend(given, Literals(d.held) + [SyncMark]);
    PlainAppend(Literals(d.held), [SyncMark]);
    PlainLiterals(d.held);
  }

  lemma FlushIsOk(d: Deflater, input: Bytes, room: nat, made: seq<Code>, n: nat)
    requires d.queue == [] && made == Literals(d.held) + [SyncMark]
    requires n == if |made| <= room then |made| else room
    ensures CallOk(d, input, room, true, 0, made[..n], Deflater(d.taken, [], made[n..]))
  {
    assert d.taken + input[..0] == d.taken;
    assert made[..n] + made[n..] == made;
    forall given | Sound(d, given) ensures Sound(Deflater(d.taken, [], made[n..]), given + made[..n]) {
      FlushIsSound(d, given, made[..n], made[n..]);
    }
  }

  /** A compressor that meets the contract (it may also fail). */
  method DeflateCall(d: Deflater, input: Bytes, room: nat, sync: bool)
    returns (ok: bool, took: nat, out: seq<Code>, r: Deflater)
    ensures ok ==> CallOk(d, input, room, sync, took, out, r)
  {
    ok := *;
    if d.queue != [] {
      var n := if |d.queue| <= room then |d.queue| else room;
      took, out, r := 0, d.queue[..n], d.(queue := d.queue[n..]);
      DrainIsOk(d, input, room, sync, n);
    } else if !sync {
      took, out, r := |input|, [], d.(taken := d.taken + input, held := d.held + input);
      TakeIsOk(d, input, room);
    } else {
      var made := Literals(d.held) + [SyncMark];
      var n := if |made| <= room then |made| else room;
      took, out, r := 0, made[..n], Deflater(d.taken, [], made[n..]);
      FlushIsOk(d, input, room, made, n);
    }
  }

  /** Two sync calls in a row that leave room: nothing is held back any more, and whatever was handed
      out before, the stream is now open and decodes to everything taken in. */
  lemma TwoRoomyCallsFlush(d0: Deflater, d1: Deflater, d2: Deflater, room1: nat, room2: nat,
                           took1: nat, took2: nat, out1: seq<Code>, out2: seq<Code>)
    requires CallOk(d0, [], room1, true, took1, out1, d1) && |out1| < room1
    requires CallOk(d1, [], room2, true, took2, out2, d2) && |out2| < room2
    ensures d2.held == [] && d2.queue == []
    ensures forall given :: Sound(d0, given) ==> Open(given + out1 + out2) && Plain(given + out1 + out2) == d0.taken
  {
    SyncTakesNothing(d0, room1, took1, out1, d1);
    SyncTakesNothing(d1, room2, took2, out2, d2);
    forall given | Sound(d0, given) ensures Open(given + out1 + out2) && Plain(given + out1 + out2) == d0.taken {
      CallKeepsSound(d0, room1, took1, out1, d1, given);
      CallKeepsSound(d1, room2, took2, out2, d2, given + out1);
      FlushedIsAll(d2, given + out1 + out2);
    }
  }

  lemma SyncTakesNothing(d: Deflater, room: nat, took: nat, out: seq<Code>, r: Deflater)
    requires CallOk(d, [], room, true, took, out, r)
    ensures r.taken == d.taken
  {
  }

  lemma CallKeepsSound(d: Deflater, room: nat, took: nat, out: seq<Code>, r: Deflater, given: seq<Code>)
    requires CallOk(d, [], room, true, took, out, r) && Sound(d, given)
    ensures Sound(r, given + out)
  {
  }

  lemma FlushedIsAll(d: Deflater, given: seq<Code>)
    requires Sound(d, given) && d.queue == [] && d.held == []
    ensures Open(given) && Plain(given) == d.taken
  {
    assert given + d.queue == given;
  }

  /** One such call is not enough, however much room it leaves: all of it can be output the compressor
      owed from earlier. */
  lemma OneRoomyCallMayHoldBack(room: nat)
    requires room > 1
    ensures exists d, out, r ::
      CallOk(d, [], room, true, 0, out, r) && |out| < room && r.held != [] && Sound(d, [Literal(1)])
  {
    var d, out, r := Deflater([1, 2, 3], [3], [Literal(2)]), [Literal(2)], Deflater([1, 2, 3], [3], []);
    assert Plain([Literal(1), Literal(2)]) == [1, 2] by {
      PlainLiterals([1, 2]);
      assert Literals([1, 2]) == [Literal(1), Literal(2)];
    }
    assert [Literal(1)] + d.queue == [Literal(1), Literal(2)];
    DrainIsOk(d, [], room, true, 1);
    assert d.queue[..1] == out && d.queue[1..] == [];
    assert CallOk(d, [], room, true, 0, out, r);
  }

  /** A call is never offered less room than this. */
  const ROOM: nat := 32 * 1024

  /** A compressor and what it has handed out; another deflate stream can be put behind the result. */
  class SyncDeflate {
    var raw: Deflater
    var out: seq<Code>

    constructor ()
      ensures Valid() && raw.taken == []
    {
      raw, out := Deflater([], [], []), [];
      new;
      assert out + raw.queue == [];
    }

    ghost predicate Valid()
      reads this
    {
      Sound(raw, out)
    }

    /** Feed all of `data`; false when the compressor failed or stalled. */
    method Write(data: Bytes) returns (ok: bool)
      requires Valid()
      modifies this
      ensures ok ==> Valid() && raw.taken == old(raw.taken) + data
    {
      var input := data;
      ghost var done: Bytes := [];
      while input != []
        invariant Valid() && done + input == data && raw.taken == old(raw.taken) + done
        decreases |input|, Debt(raw)
      {
        var room: nat :| room >= ROOM;
        var called, took, made, next := DeflateCall(raw, input, room, false);
        if !called {
          return false;
        }
        raw, out := next, out + made;
        if took == 0 && made == [] {
          return false;
        }
        assert old(raw.taken) + done + input[..took] == old(raw.taken) + (done + input[..took]);
        done := done + input[..took];
        input := input[took..];
      }
      ok := true;
      assert done == data;
    }

    /** Sync-flush: the stream handed back is complete and open-ended. */
    method FinishSync() returns (stream: Option<seq<Code>>)
      requires Valid()
      modifies this
      ensures stream.Some? ==> Open(stream.value) && Plain(stream.value) == old(raw.taken)
    {
      var roomy := 0;
      while roomy < 2
        invariant 0 <= roomy <= 2
        invariant Valid() && raw.taken == old(raw.taken)
        invariant roomy >= 1 ==> raw.queue == []
        invariant roomy == 2 ==> raw.held == []
        decreases Debt(raw), 2 - roomy
      {
        var room: nat :| room >= ROOM;
        var called, took, made, next := DeflateCall(raw, [], room, true);
        if !called {
          return None;
        }
        ghost var none: Bytes := [];
        assert raw.taken + none[..took] == raw.taken;
        raw, out := next, out + made;
        roomy := if |made| < room then roomy + 1 else 0;
      }
      assert out + raw.queue == out;
      stream := Some(out);
    }
  }

  // --- entries and answers --------------------------------------------------------------

  const GZIP_HEADER: Bytes := [0x1f, 0x8b, 8, 0, 0, 0, 0, 0, 0, 0xff]

  /** A stored listing: its gzip prefix, the hash state and the length of what it stands for. */
  datatype Stored = Stored(gzPrefix: seq<Code>, crc: bv32, rawLen: nat)

  /** `e` is the compressed form of `text`. */
  ghost predicate Holds(h: Hash, e: Stored, text: Bytes) {
    && |e.gzPrefix| >= |GZIP_HEADER|
    && e.gzPrefix[..|GZIP_HEADER|] == Raws(GZIP_HEADER)
    && Open(e.gzPrefix[|GZIP_HEADER|..])
    && Plain(e.gzPrefix[|GZIP_HEADER|..]) == text
    && e.crc == Update(h, h.start, text)
    && e.rawLen == |text|
  }

  function Flatten(chunks: seq<Bytes>): Bytes {
    if chunks == [] then [] else chunks[0] + Flatten(chunks[1..])
  }

  lemma {:induction false} FlattenAppend(chunks: seq<Bytes>, c: Bytes)
    ensures Flatten(chunks + [c]) == Flatten(chunks) + c
  {
    if chunks == [] {
      assert chunks + [c] == [c];
    } else {
      assert (chunks + [c])[1..] == chunks[1..] + [c];
      FlattenAppend(chunks[1..], c);
    }
  }

  lemma Package(h: Hash, d: seq<Code>, text: Bytes)
    requires Open(d) && Plain(d) == text
    ensures Holds(h, Stored(Raws(GZIP_HEADER) + d, Update(h, h.start, text), |text|), text)
  {
    var gz := Raws(GZIP_HEADER) + d;
    assert gz[|GZIP_HEADER|..] == d && gz[..|GZIP_HEADER|] == Raws(GZIP_HEADER);
  }

  /** Feed one chunk to the hash, the length and (until it fails) the compressor. */
  method Feed(h: Hash, enc: SyncDeflate, crc: bv32, rawLen: nat, failed: bool, chunk: Bytes, ghost text: Bytes)
    returns (crc': bv32, rawLen': nat, failed': bool)
    requires crc == Update(h, h.start, text) && rawLen == |text|
    requires !failed ==> enc.Valid() && enc.raw.taken == text
    modifies enc
    ensures crc' == Update(h, h.start, text + chunk) && rawLen' == |text + chunk|
    ensures !failed' ==> enc.Valid() && enc.raw.taken == text + chunk
  {
    FoldAppend(h.step, h.start, text, chunk);
    crc', rawLen', failed' := Update(h, crc, chunk), rawLen + |chunk|, failed;
    if !failed {
      var written := enc.Write(chunk);
      failed' := !written;
    }
  }

  /** Compress the opening tag and the chunks a listing is written in. */
  method Compress(h: Hash, open: Bytes, chunks: seq<Bytes>) returns (entry: Option<Stored>)
    ensures entry.Some? ==> Holds(h, entry.value, open + Flatten(chunks))
  {
    var enc := new SyncDeflate();
    var crc, rawLen, failed := Feed(h, enc, h.start, 0, false, open, []);
    ghost var text := open;
    assert [] + open == open;
    assert open + Flatten(chunks[..0]) == open;
    for i := 0 to |chunks|
      invariant text == open + Flatten(chunks[..i])
      invariant crc == Update(h, h.start, text) && rawLen == |text|
      invariant !failed ==> enc.Valid() && enc.raw.taken == text
    {
      NextPrefix(chunks, i);
      FlattenAppend(chunks[..i], chunks[i]);
      crc, rawLen, failed := Feed(h, enc, crc, rawLen, failed, chunks[i], text);
      text := text + chunks[i];
    }
    WholePrefix(chunks);
    if failed {
      return None;
    }
    var deflated := enc.FinishSync();
    if deflated.None? {
      return None;
    }
    Package(h, deflated.value, text);
    entry := Some(Stored(Raws(GZIP_HEADER) + deflated.value, crc, rawLen));
  }

  /** The gzip trailer: the hash, then the size modulo 2^32, both little-endian. */
  function Trailer(h: Hash, crc: bv32, total: nat): (r: seq<Code>)
    ensures |r| == 8
  {
    Raws(LittleEndian(h.finish(crc) as nat, 4) + LittleEndian(total % 0x1_0000_0000, 4))
  }

  /** Eight bytes that are the finished hash of a text and its length modulo 2^32 (sections 2.3 and 2.3.1 of
      RFC 1952). */
  predicate Certifies(h: Hash, s: seq<Code>, text: Bytes) {
    && |s| == 8 && AllRaw(s)
    && Four(s[..4]) == h.finish(Update(h, h.start, text)) as nat && Four(s[4..]) == |text| % 0x1_0000_0000
  }

  /** The magic number, the method (deflate) and no flags, so that ten bytes are the whole header. */
  predicate IsHeader(s: seq<Code>) {
    && |s| == 10 && AllRaw(s)
    && s[0].b == 0x1f && s[1].b == 0x8b && s[2].b == 8 && s[3].b == 0
  }

  /** What a gzip reader makes of a body: header, open blocks up to the final one, then the hash and
      the size of what came out. */
  function Gunzip(h: Hash, body: seq<Code>): Option<Bytes> {
    if |body| < 10 || !IsHeader(body[..10]) then None
    else
      var rest := body[10..];
      var i := FinalAt(rest);
      if i == |rest| || !Open(rest[..i]) then None
      else
        var plain := Plain(rest[..i]);
        if Certifies(h, rest[i + 1..], plain) then Some(plain) else None
  }

  lemma TrailerCertifies(h: Hash, text: Bytes)
    ensures Certifies(h, Trailer(h, Update(h, h.start, text), |text|), text)
  {
    var hash, size := h.finish(Update(h, h.start, text)) as nat, |text| % 0x1_0000_0000;
    var trailer := Trailer(h, Update(h, h.start, text), |text|);
    FourReads(hash);
    FourReads(size);
    assert trailer[..4] == Raws(LittleEndian(hash, 4));
    assert trailer[4..] == Raws(LittleEndian(size, 4));
  }

  function FinalAt(d: seq<Code>): (i: nat)
    ensures i <= |d|
    ensures i < |d| ==> d[i].FinalMark?
    ensures forall j :: 0 <= j < i ==> !d[j].FinalMark?
  {
    if d == [] || d[0].FinalMark? then 0 else 1 + FinalAt(d[1..])
  }

  /** Whatever open stream precedes the final block, the answer reads back as its text. */
  lemma GunzipReads(h: Hash, body: seq<Code>, d: seq<Code>, text: Bytes, trailer: seq<Code>)
    requires Open(d) && Plain(d) == text
    requires Certifies(h, trailer, text)
    requires body == Raws(GZIP_HEADER) + (d + [FinalMark] + trailer)
    ensures Gunzip(h, body) == Some(text)
  {
    var rest := d + [FinalMark] + trailer;
    assert body[..10] == Raws(GZIP_HEADER) && body[10..] == rest;
    assert rest[|d|] == FinalMark && forall j :: 0 <= j < |d| ==> rest[j] == d[j];
    assert FinalAt(rest) == |d|;
    assert rest[..|d|] == d && rest[|d| + 1..] == trailer;
  }

  /** Byte lengths add up over the parts of a body. */
  ghost predicate Additive(size: seq<Code> -> nat) {
    forall a, b {:trigger size(a + b)} :: size(a + b) == size(a) + size(b)
  }

  /** A stream for a whole text, closed by the final mark. */
  ghost predicate IsDeflated(stream: seq<Code>, text: Bytes) {
    stream != [] && stream[|stream| - 1] == FinalMark
    && Open(stream[..|stream| - 1]) && Plain(stream[..|stream| - 1]) == text
  }

  /** What is sent for the tail: nothing when deflating it failed. */
  function TailSent(deflated: Option<seq<Code>>): seq<Code> {
    if deflated.Some? then deflated.value else []
  }

  function GzipBody(h: Hash, e: Stored, tail: Bytes, deflated: Option<seq<Code>>): seq<Code> {
    e.gzPrefix + TailSent(deflated) + Trailer(h, Update(h, e.crc, tail), e.rawLen + |tail|)
  }

  /** The lengths of the parts of a gzip answer, added up. */
  function PartsLength(h: Hash, e: Stored, tail: Bytes, deflated: Option<seq<Code>>, size: seq<Code> -> nat): nat {
    size(e.gzPrefix) + size(TailSent(deflated)) + size(Trailer(h, Update(h, e.crc, tail), e.rawLen + |tail|))
  }

  lemma PartsAddUp(h: Hash, e: Stored, tail: Bytes, deflated: Option<seq<Code>>, size: seq<Code> -> nat)
    requires Additive(size)
    ensures size(GzipBody(h, e, tail, deflated)) == PartsLength(h, e, tail, deflated, size)
  {
    var trailer := Trailer(h, Update(h, e.crc, tail), e.rawLen + |tail|);
    assert size(e.gzPrefix + TailSent(deflated)) == size(e.gzPrefix) + size(TailSent(deflated));
    assert size((e.gzPrefix + TailSent(deflated)) + trailer) == size(e.gzPrefix + TailSent(deflated)) + size(trailer);
  }

  /** The gzip answer to a hit, with `tailXml` and the closing tag appended; `deflated` is what deflating
      those two gave, if it did not fail. Whatever stream it is, the body reads as listing, tail and
      closing tag; it is unreadable exactly when there is none. It always ends in the hash and the size of
      the three. Content-Length is the length of the body. */
  method RespondGzip(h: Hash, e: Stored, ghost text: Bytes, tailXml: Bytes, close: Bytes,
                     deflated: Option<seq<Code>>, size: seq<Code> -> nat)
    returns (body: seq<Code>, contentLength: nat)
    requires Holds(h, e, text) && Additive(size)
    requires deflated.Some? ==> IsDeflated(deflated.value, tailXml + close)
    ensures Gunzip(h, body) == if deflated.Some? then Some(text + tailXml + close) else None
    ensures |body| >= 8 && Certifies(h, body[|body| - 8..], text + tailXml + close)
    ensures contentLength == size(body)
  {
    var tail := tailXml + close;
    body, contentLength := GzipBody(h, e, tail, deflated), PartsLength(h, e, tail, deflated, size);
    PartsAddUp(h, e, tail, deflated, size);
    BodyEnds(h, e, text, tail, deflated);
    Regroup(text, tailXml, close);
    if deflated.None? {
      NoTailIsUnreadable(h, e, text, tail);
    } else {
      GzipAnswerReads(h, e, text, tail, deflated.value);
    }
  }

  /** The plain answer to the same hit; Content-Length is that of the text whether or not inflating
      succeeds. */
  method RespondPlain(h: Hash, e: Stored, ghost text: Bytes, tailXml: Bytes, close: Bytes)
    returns (chunks: seq<Bytes>, contentLength: nat, failed: bool)
    requires Holds(h, e, text)
    ensures contentLength == |text + tailXml + close|
    ensures !failed ==> Flatten(chunks) == text + tailXml + close
    ensures failed ==> Flatten(chunks) <= text
  {
    var tail := tailXml + close;
    assert text + tail == text + tailXml + close;
    contentLength := e.rawLen + |tail|;
    chunks, failed := InflateStream(e.gzPrefix[|GZIP_HEADER|..], tail);
  }

  /** The body ends in the hash and the size of the whole text. */
  lemma BodyEnds(h: Hash, e: Stored, text: Bytes, tail: Bytes, deflated: Option<seq<Code>>)
    requires Holds(h, e, text)
    ensures var body := GzipBody(h, e, tail, deflated); |body| >= 8 && Certifies(h, body[|body| - 8..], text + tail)
  {
    TrailerContinues(h, e, text, tail);
    TrailerCertifies(h, text + tail);
    var front, trailer := e.gzPrefix + TailSent(deflated), Trailer(h, Update(h, e.crc, tail), e.rawLen + |tail|);
    assert (front + trailer)[|front|..] == trailer;
  }

  lemma OpenNoMark(d: seq<Code>, rest: seq<Code>)
    requires Open(d) && forall i :: 0 <= i < |rest| ==> !rest[i].FinalMark?
    ensures FinalAt(d + rest) == |d + rest|
  {
    var all := d + rest;
    assert forall i :: 0 <= i < |d| ==> all[i] == d[i];
    assert forall i :: |d| <= i < |all| ==> all[i] == rest[i - |d|];
  }

  /** Without a final block the member never ends. */
  lemma NoTailIsUnreadable(h: Hash, e: Stored, text: Bytes, tail: Bytes)
    requires Holds(h, e, text)
    ensures Gunzip(h, GzipBody(h, e, tail, None)) == None
  {
    var d, trailer := e.gzPrefix[|GZIP_HEADER|..], Trailer(h, Update(h, e.crc, tail), e.rawLen + |tail|);
    OpenNoMark(d, trailer);
    NothingSent(e.gzPrefix, trailer);
  }

  lemma NothingSent(prefix: seq<Code>, trailer: seq<Code>)
    requires |prefix| >= 10
    ensures (prefix + [] + trailer)[10..] == prefix[10..] + trailer
  {
  }

  /** The body as one gzip member: the stored stream and the tail's are one stream. */
  lemma BodyIsMember(h: Hash, e: Stored, text: Bytes, tail: Bytes, tailDeflated: seq<Code>)
    requires Holds(h, e, text) && IsDeflated(tailDeflated, tail)
    ensures GzipBody(h, e, tail, Some(tailDeflated)) ==
      Raws(GZIP_HEADER) + (e.gzPrefix[|GZIP_HEADER|..] + tailDeflated[..|tailDeflated| - 1] + [FinalMark]
                           + Trailer(h, Update(h, h.start, text + tail), |text + tail|))
  {
    TrailerContinues(h, e, text, tail);
    MemberParts(e.gzPrefix, tailDeflated, Trailer(h, Update(h, h.start, text + tail), |text + tail|));
  }

  /** A tail deflated on its own, with the CRC continued from the stored state, completes the entry. */
  lemma GzipAnswerReads(h: Hash, e: Stored, text: Bytes, tail: Bytes, tailDeflated: seq<Code>)
    requires Holds(h, e, text) && IsDeflated(tailDeflated, tail)
    ensures Gunzip(h, GzipBody(h, e, tail, Some(tailDeflated))) == Some(text + tail)
  {
    var d, lits := e.gzPrefix[|GZIP_HEADER|..], tailDeflated[..|tailDeflated| - 1];
    StreamContinues(d, lits);
    BodyIsMember(h, e, text, tail, tailDeflated);
    TrailerCertifies(h, text + tail);
    GunzipReads(h, GzipBody(h, e, tail, Some(tailDeflated)), d + lits, text + tail,
                Trailer(h, Update(h, h.start, text + tail), |text + tail|));
  }

  lemma StreamContinues(a: seq<Code>, b: seq<Code>)
    requires Open(a) && Open(b)
    ensures Open(a + b) && Plain(a + b) == Plain(a) + Plain(b)
  {
    PlainAppend(a, b);
  }

  /** The trailer worked out from the stored hash state and length is that of the whole text. */
  lemma TrailerContinues(h: Hash, e: Stored, text: Bytes, tail: Bytes)
    requires Holds(h, e, text)
    ensures Trailer(h, Update(h, e.crc, tail), e.rawLen + |tail|)
         == Trailer(h, Update(h, h.start, text + tail), |text + tail|)
  {
    FoldAppend(h.step, h.start, text, tail);
  }

  lemma MemberParts(prefix: seq<Code>, tailDeflated: seq<Code>, trailer: seq<Code>)
    requires |GZIP_HEADER| <= |prefix| && prefix[..|GZIP_HEADER|] == Raws(GZIP_HEADER)
    requires tailDeflated != [] && tailDeflated[|tailDeflated| - 1] == FinalMark
    ensures var d, lits := prefix[|GZIP_HEADER|..], tailDeflated[..|tailDeflated| - 1];
      prefix + tailDeflated + trailer == Raws(GZIP_HEADER) + (d + lits + [FinalMark] + trailer)
  {
    Rejoin(prefix, |GZIP_HEADER|, tailDeflated, trailer);
    FrontAndLast(tailDeflated);
    Regroup(prefix[|GZIP_HEADER|..], tailDeflated[..|tailDeflated| - 1], [FinalMark]);
  }

  lemma Rejoin<T>(a: seq<T>, n: nat, b: seq<T>, c: seq<T>)
    requires n <= |a|
    ensures a + b + c == a[..n] + (a[n..] + b + c)
  {
  }

  // --- inflating for identity clients ---------------------------------------------------

  /** A decompressor between two calls: how much of the stream it read, and decoded bytes it holds. */
  datatype Inflater = Inflater(pos: nat, pending: Bytes)

  /** One call on the rest of the stream: what it decodes comes out in order; making no progress with
      room to write means everything is out. */
  ghost predicate InflateOk(input: seq<Code>, st: Inflater, room: nat, out: Bytes, r: Inflater) {
    && st.pos <= r.pos <= |input|
    && |out| <= room
    && out + r.pending == st.pending + Plain(input[st.pos..r.pos])
    && (r.pos == st.pos && out == [] && room > 0 ==> r.pos == |input| && r.pending == [])
  }

  /** A decompressor that meets the contract (it may also fail). */
  method InflateCall(input: seq<Code>, st: Inflater, room: nat) returns (ok: bool, out: Bytes, r: Inflater)
    requires st.pos <= |input|
    ensures ok ==> InflateOk(input, st, room, out, r)
  {
    ok := *;
    var all := st.pending + Plain(input[st.pos..]);
    var n := if |all| <= room then |all| else room;
    out, r := all[..n], Inflater(|input|, all[n..]);
    assert input[st.pos..|input|] == input[st.pos..];
    if room > 0 && out == [] {
      assert all == [];
    }
  }

  const CHUNK: nat := 64 * 1024

  /** What has come out, in chunks and in the one being filled, and what the decompressor still holds. */
  ghost predicate Inflating(deflated: seq<Code>, chunks: seq<Bytes>, out: Bytes, st: Inflater) {
    st.pos <= |deflated| && Flatten(chunks) + out + st.pending == Plain(deflated[..st.pos])
  }

  lemma InflateStep(deflated: seq<Code>, chunks: seq<Bytes>, out: Bytes, st: Inflater, room: nat,
                    made: Bytes, next: Inflater)
    requires Inflating(deflated, chunks, out, st) && InflateOk(deflated, st, room, made, next)
    ensures Inflating(deflated, chunks, out + made, next)
    ensures next.pos == st.pos ==> |made| + |next.pending| == |st.pending|
  {
    var piece := deflated[st.pos..next.pos];
    assert deflated[..next.pos] == deflated[..st.pos] + piece;
    PlainAppend(deflated[..st.pos], piece);
    InflatedJoins(Flatten(chunks), out, st.pending, Plain(piece), made, next.pending);
    assert next.pos == st.pos ==> piece == [];
  }

  lemma InflatedJoins(a: Bytes, out: Bytes, pending: Bytes, piece: Bytes, made: Bytes, left: Bytes)
    requires made + left == pending + piece
    ensures a + (out + made) + left == a + out + pending + piece
  {
    assert a + (out + made) + left == a + out + (made + left);
  }

  lemma ChunkDone(deflated: seq<Code>, chunks: seq<Bytes>, out: Bytes, st: Inflater)
    requires Inflating(deflated, chunks, out, st)
    ensures Inflating(deflated, chunks + [out], [], st)
  {
    FlattenAppend(chunks, out);
    assert Flatten(chunks) + out + [] == Flatten(chunks) + out;
  }

  /** Every chunk sent is of the inflated stream, in order. */
  lemma InflatedIsPrefix(deflated: seq<Code>, chunks: seq<Bytes>, out: Bytes, st: Inflater)
    requires Inflating(deflated, chunks, out, st)
    ensures Flatten(chunks) <= Plain(deflated)
  {
    PlainAppend(deflated[..st.pos], deflated[st.pos..]);
    assert deflated == deflated[..st.pos] + deflated[st.pos..];
  }

  /** The inflated prefix in chunks, then the tail; a failing decompressor ends the stream there. */
  method InflateStream(deflated: seq<Code>, tail: Bytes) returns (chunks: seq<Bytes>, failed: bool)
    ensures !failed ==> Flatten(chunks) == Plain(deflated) + tail
    ensures failed ==> Flatten(chunks) <= Plain(deflated)
  {
    chunks, failed := [], false;
    var st := Inflater(0, []);
    var done := false;
    assert Plain(deflated[..0]) == [];
    while !done
      invariant Inflating(deflated, chunks, [], st)
      invariant done ==> st == Inflater(|deflated|, [])
      decreases |deflated| - st.pos, |st.pending|, !done
    {
      var out: Bytes := [];
      ghost var st0 := st;
      while |out| < CHUNK && !done
        invariant Inflating(deflated, chunks, out, st) && st0.pos <= st.pos && |out| <= CHUNK
        invariant done ==> st == Inflater(|deflated|, [])
        invariant st.pos == st0.pos ==> |st.pending| + |out| == |st0.pending|
        decreases |deflated| - st.pos, |st.pending|, !done
      {
        var ok, made, next := InflateCall(deflated, st, CHUNK - |out|);
        if !ok {
          InflatedIsPrefix(deflated, chunks, out, st);
          return chunks, true;
        }
        InflateStep(deflated, chunks, out, st, CHUNK - |out|, made, next);
        done := next.pos == st.pos && made == [];
        out, st := out + made, next;
      }
      if out != [] {
        ChunkDone(deflated, chunks, out, st);
        chunks := chunks + [out];
      }
    }
    WholePrefix(deflated);
    FlattenAppend(chunks, tail);
    assert Flatten(chunks) + [] + [] == Flatten(chunks);
    chunks := chunks + [tail];
  }
}
