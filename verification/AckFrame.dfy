/** ACK frames without ECN counts: what is written for a list of received ranges, what is
    read back, and the ranges a frame stands for (picoquic/frames.c). */
module AckFrame {

  import opened Varint
  import opened SackList

  const FRAME_TYPE_ACK: byte := 0x0d
  const MAX_BLOCKS := 63

  /** The numbers missing below a range, less one, and the length of the next range, less
      one. */
  datatype Block = Block(gap: nat, range: nat)

  datatype Frame = Frame(largest: nat, delay: nat, first: nat, blocks: seq<Block>)

  // -------------------------------------------------------------------------- wire format

  function Flat(bs: seq<Block>): (r: seq<nat>)
    ensures |r| == 2 * |bs|
  {
    if bs == [] then [] else [bs[0].gap, bs[0].range] + Flat(bs[1..])
  }

  function Pairs(ns: seq<nat>): (r: seq<Block>)
    requires |ns| % 2 == 0
    ensures |r| == |ns| / 2
    decreases |ns|
  {
    if ns == [] then [] else [Block(ns[0], ns[1])] + Pairs(ns[2..])
  }

  ghost predicate Blocks62(bs: seq<Block>) {
    forall i :: 0 <= i < |bs| ==> bs[i].gap < VARINT_LIMIT && bs[i].range < VARINT_LIMIT
  }

  /** Frames the format has room for; the delay is cut to 62 bits. */
  ghost predicate Encodable(f: Frame) {
    && f.largest < VARINT_LIMIT && f.delay < U64 && f.first < VARINT_LIMIT
    && Blocks62(f.blocks) && |f.blocks| <= MAX_BLOCKS
  }

  lemma {:induction false} FlatBelow(bs: seq<Block>)
    requires Blocks62(bs)
    ensures All64(Flat(bs)) && forall i :: 0 <= i < 2 * |bs| ==> Flat(bs)[i] < VARINT_LIMIT
    decreases |bs|
  {
    if bs != [] {
      FlatBelow(bs[1..]);
      assert bs[0].gap < VARINT_LIMIT;
    }
  }

  lemma {:induction false} PairsFlat(bs: seq<Block>)
    ensures Pairs(Flat(bs)) == bs
    decreases |bs|
  {
    if bs != [] {
      PairsFlat(bs[1..]);
      assert Flat(bs)[2..] == Flat(bs[1..]);
    }
  }

  /** The numbers of a frame before and after the one-byte block count. */
  function Head(f: Frame): seq<nat> { [f.largest, f.delay, |f.blocks|] }
  function Body(f: Frame): seq<nat> { [f.first] + Flat(f.blocks) }

  lemma FieldsBelow(f: Frame)
    requires Encodable(f)
    ensures All64(Head(f)) && All64(Body(f))
    ensures forall i :: 0 <= i < |Body(f)| ==> Body(f)[i] < VARINT_LIMIT
  {
    FlatBelow(f.blocks);
  }

  function FrameBytes(f: Frame): seq<byte>
    requires Encodable(f)
  {
    FieldsBelow(f);
    [FRAME_TYPE_ACK] + EncodeAll(Head(f)) + EncodeAll(Body(f))
  }

  // -------------------------------------------------------------------- reading the frame

  /** The frame whose numbers before and after the block count are h and b. */
  function Assemble(h: seq<nat>, b: seq<nat>): (f: Frame)
    requires |h| == 3 && |b| == 1 + 2 * h[2]
    ensures |f.blocks| == h[2]
  {
    Frame(h[0], h[1], b[0], Pairs(b[1..]))
  }

  /** parse_ack_frame_maybe_ecn on a frame of type 0x0d. */
  function Parse(s: seq<byte>): (r: Option<Read<Frame>>)
    ensures r.Some? ==> r.value.length <= |s| && |r.value.value.blocks| <= MAX_BLOCKS
  {
    if s == [] then None else
      match DecodeAll(s[1..], 3)
      case None => None
      case Some(h) =>
        if h.value[2] > MAX_BLOCKS then None else
          match DecodeAll(s[1 + h.length..], 1 + 2 * h.value[2])
          case None => None
          case Some(b) =>
            Some(Read(Assemble(h.value, b.value), 1 + h.length + b.length))
  }

  /** Reading what was written gives the frame back, whatever follows it; only a delay of
      2^62 or more comes back smaller. */
  lemma ParseFrameBytes(f: Frame, rest: seq<byte>)
    requires Encodable(f)
    ensures var r := Parse(FrameBytes(f) + rest);
            && r.Some? && r.value.length == |FrameBytes(f)|
            && r.value.value == f.(delay := r.value.value.delay)
            && (f.delay < VARINT_LIMIT ==> r.value.value == f)
  {
    hide Encode, Decode, EncodeAll, DecodeAll;
    FieldsBelow(f);
    var s := FrameBytes(f) + rest;
    var h, b := EncodeAll(Head(f)), EncodeAll(Body(f));
    assert s[1..] == h + (b + rest);
    DecodeAllEncodeAll(Head(f), b + rest);
    assert s[1 + |h|..] == b + rest;
    DecodeAllEncodeAll(Body(f), rest);
    var ms := DecodeAll(b + rest, |Body(f)|).value.value;
    assert ms == Body(f);
    assert ms[1..] == Flat(f.blocks);
    PairsFlat(f.blocks);
  }

  // ------------------------------------------------------------------ from frame to ranges

  /** The ranges acted upon, and whether all of them were reached. */
  datatype Expansion = Expansion(ranges: seq<Range>, ok: bool)

  /** process_ack_frame_maybe_ecn: a range longer than what is left below `largest` is an
      error; otherwise the next one is found by skipping the gap. */
  function ExpandFrom(largest: nat, length: nat, blocks: seq<Block>): Expansion
    decreases |blocks|
  {
    if largest < length then Expansion([], false)
    else
      var r := Range(largest - length, largest);
      if blocks == [] then Expansion([r], true)
      else
        var skip := blocks[0].gap + 1 + (length + 1);
        if largest < skip then Expansion([r], false)
        else
          var e := ExpandFrom(largest - skip, blocks[0].range, blocks[1..]);
          Expansion([r] + e.ranges, e.ok)
  }

  function Expand(f: Frame): Expansion {
    ExpandFrom(f.largest, f.first, f.blocks)
  }

  /** Whatever a peer sends, the ranges acted upon are in normal form. */
  lemma {:induction false} ExpandNormal(largest: nat, length: nat, blocks: seq<Block>)
    ensures var e := ExpandFrom(largest, length, blocks);
            && Normal(e.ranges)
            && (e.ranges != [] ==> largest >= length && e.ranges[0] == Range(largest - length, largest))
    decreases |blocks|
  {
    if largest >= length && blocks != [] {
      var skip := blocks[0].gap + 1 + (length + 1);
      if largest >= skip {
        ExpandNormal(largest - skip, blocks[0].range, blocks[1..]);
        NormalCons(Range(largest - length, largest),
                   ExpandFrom(largest - skip, blocks[0].range, blocks[1..]).ranges);
      }
    }
  }

  // ------------------------------------------------------------------ from ranges to frame

  /** The blocks describing all ranges after the first. No subtraction underflows, because
      a number is missing between two ranges. */
  function BlocksOf(s: seq<Range>): (r: seq<Block>)
    requires Normal(s) && s != []
    ensures |r| == |s| - 1
    decreases |s|
  {
    if |s| == 1 then []
    else
      assert s[1].hi + 1 < s[0].lo;
      [Block(s[0].lo - s[1].hi - 2, s[1].hi - s[1].lo)] + BlocksOf(s[1..])
  }

  function FrameOf(s: seq<Range>, delay: nat): Frame
    requires Normal(s) && s != []
  {
    Frame(s[0].hi, delay, s[0].hi - s[0].lo, BlocksOf(s))
  }

  lemma {:induction false} BlocksOf62(s: seq<Range>)
    requires Normal(s) && s != [] && s[0].hi < VARINT_LIMIT
    ensures Blocks62(BlocksOf(s))
    decreases |s|
  {
    if |s| > 1 {
      assert s[1].hi + 1 < s[0].lo;
      BlocksOf62(s[1..]);
    }
  }

  /** The frame of a prefix of the list has a prefix of the blocks. */
  lemma {:induction false} BlocksOfPrefix(s: seq<Range>, n: nat)
    requires Normal(s) && 1 <= n <= |s|
    ensures BlocksOf(s[..n]) == BlocksOf(s)[..n - 1]
    decreases n
  {
    if n > 1 {
      BlocksOfPrefix(s[1..], n - 1);
      assert s[..n][1..] == s[1..][..n - 1];
    }
  }

  lemma {:induction false} BlocksOfAt(s: seq<Range>, i: nat)
    requires Normal(s) && i + 1 < |s|
    ensures BlocksOf(s)[i] == Block(s[i].lo - s[i + 1].hi - 2, s[i + 1].hi - s[i + 1].lo)
    decreases i
  {
    if i > 0 {
      BlocksOfAt(s[1..], i - 1);
    }
  }

  /** Expanding the blocks of a list gives the list back without any range or gap error. */
  lemma {:induction false} ExpandBlocksOf(s: seq<Range>)
    requires Normal(s) && s != []
    ensures ExpandFrom(s[0].hi, s[0].hi - s[0].lo, BlocksOf(s)) == Expansion(s, true)
    decreases |s|
  {
    if |s| == 1 {
      assert s == [s[0]];
    } else {
      var t := s[1..];
      assert s[1].hi + 1 < s[0].lo && Normal(t);
      ExpandBlocksOf(t);
      var b := BlocksOf(s);
      assert b[0] == Block(s[0].lo - s[1].hi - 2, s[1].hi - s[1].lo) && b[1..] == BlocksOf(t);
      hide Normal, BlocksOf;
      assert s == [s[0]] + t;
    }
  }

  /** The whole trip: a list below 2^62 with at most 64 ranges, written as a frame, read
      back among other bytes and expanded, is the same list. */
  lemma AckRoundTrip(s: seq<Range>, delay: nat, rest: seq<byte>)
    requires Normal(s) && 0 < |s| <= MAX_BLOCKS + 1 && s[0].hi < VARINT_LIMIT && delay < U64
    ensures Encodable(FrameOf(s, delay))
    ensures var bytes := FrameBytes(FrameOf(s, delay));
            var r := Parse(bytes + rest);
            r.Some? && r.value.length == |bytes| && Expand(r.value.value) == Expansion(s, true)
  {
    hide FrameBytes, Parse, ExpandFrom;
    BlocksOf62(s);
    ParseFrameBytes(FrameOf(s, delay), rest);
    ExpandBlocksOf(s);
  }

  // ---------------------------------------------------------------- the loops of frames.c

  /** What the encoder wrote for the first n ranges of a list is read back as these. */
  lemma PrefixRoundTrip(s: seq<Range>, n: nat, delay: nat, rest: seq<byte>)
    requires Normal(s) && 1 <= n <= |s| && n <= MAX_BLOCKS + 1 && s[0].hi < VARINT_LIMIT && delay < U64
    ensures Normal(s[..n]) && Encodable(FrameOf(s[..n], delay))
    ensures var r := Parse(FrameBytes(FrameOf(s[..n], delay)) + rest);
            r.Some? && Expand(r.value.value) == Expansion(s[..n], true)
  {
    assert Normal(s[..n]);
    AckRoundTrip(s[..n], delay, rest);
  }

  lemma {:induction false} FlatSnoc(bs: seq<Block>, b: Block)
    ensures Flat(bs + [b]) == Flat(bs) + [b.gap, b.range]
    decreases |bs|
  {
    if bs == [] {
      assert bs + [b] == [b];
    } else {
      FlatSnoc(bs[1..], b);
      assert (bs + [b])[1..] == bs[1..] + [b];
    }
  }

  /** The loop of parse_ack_frame_maybe_ecn over the blocks, after the block count. */
  method ParseBody(s: seq<byte>, start: nat, count: nat)
    returns (ok: bool, first: nat, blocks: seq<Block>, at: nat)
    requires start <= |s|
    ensures start <= at && |blocks| == if ok then count else 0
    ensures DecodeAll(s[start..], 1 + 2 * count) ==
            if ok then Some(Read([first] + Flat(blocks), at - start)) else None
  {
    hide Decode, DecodeAll, Reading;
    blocks, at := [], start;
    var l;
    ReadingNone(s, start, 1 + 2 * count);
    first, l := Next(s, start, at, [], 1 + 2 * count);
    if l == 0 { return false, 0, [], at; }
    at := at + l;
    assert [] + [first] == [first] + Flat([]);
    var i := 0;
    while i < count
      invariant 0 <= i <= count && |blocks| == i && start <= at <= |s|
      invariant Reading(s, start, at, [first] + Flat(blocks), 2 * (count - i))
    {
      var gap, range;
      ghost var fields := [first] + Flat(blocks);
      gap, l := Next(s, start, at, fields, 2 * (count - i));
      if l == 0 { return false, 0, [], at; }
      at := at + l;
      range, l := Next(s, start, at, fields + [gap], 2 * (count - i) - 1);
      if l == 0 { return false, 0, [], at; }
      at := at + l;
      FlatSnoc(blocks, Block(gap, range));
      blocks := blocks + [Block(gap, range)];
      assert fields + [gap] + [range] == [first] + Flat(blocks);
      i := i + 1;
    }
    ReadingAll(s, start, at, [first] + Flat(blocks));
    ok := true;
  }

  /** parse_ack_frame_maybe_ecn on a frame of type 0x0d: `consumed == 0` for an error. */
  method ParseFrame(s: seq<byte>) returns (f: Frame, consumed: nat)
    requires s != []
    ensures Parse(s) == if consumed > 0 then Some(Read(f, consumed)) else None
  {
    hide Decode, DecodeAll, Reading, Flat, Pairs;
    f, consumed := Frame(0, 0, 0, []), 0;
    ReadingNone(s, 1, 3);
    var largest, l1 := Next(s, 1, 1, [], 3);
    if l1 == 0 { return; }
    assert [] + [largest] == [largest];
    var delay, l2 := Next(s, 1, 1 + l1, [largest], 2);
    if l2 == 0 { return; }
    assert [largest] + [delay] == [largest, delay];
    var count, l3 := Next(s, 1, 1 + l1 + l2, [largest, delay], 1);
    if l3 == 0 { return; }
    assert [largest, delay] + [count] == [largest, delay, count];
    ReadingAll(s, 1, 1 + l1 + l2 + l3, [largest, delay, count]);
    if count > MAX_BLOCKS { return; }
    var ok, first, blocks, at := ParseBody(s, 1 + l1 + l2 + l3, count);
    if !ok { return; }
    PairsFlat(blocks);
    assert ([first] + Flat(blocks))[1..] == Flat(blocks);
    return Frame(largest, delay, first, blocks), at;
  }

  function HeaderLength(s: seq<Range>, delay: nat): nat
    requires Normal(s) && s != [] && s[0].hi < VARINT_LIMIT && delay < U64
  {
    1 + |Encode(s[0].hi)| + |Encode(delay)| + 1 + |Encode(s[0].hi - s[0].lo)|
  }

  /** The numbers after the block count when the first n ranges are reported. */
  function BodyOf(s: seq<Range>, n: nat): seq<nat>
    requires Normal(s) && 1 <= n <= |s|
  {
    [s[0].hi - s[0].lo] + Flat(BlocksOf(s)[..n - 1])
  }

  lemma BodyOfBelow(s: seq<Range>, n: nat)
    requires Normal(s) && 1 <= n <= |s| && s[0].hi < VARINT_LIMIT
    ensures All64(BodyOf(s, n))
  {
    BlocksOf62(s);
    FlatBelow(BlocksOf(s)[..n - 1]);
  }

  /** Reporting one more range appends its gap and its length. */
  lemma BodyOfNext(s: seq<Range>, n: nat)
    requires Normal(s) && 1 <= n < |s| && s[0].hi < VARINT_LIMIT
    ensures All64(BodyOf(s, n)) && All64(BodyOf(s, n + 1))
    ensures s[n - 1].lo - s[n].hi >= 2
    ensures EncodeAll(BodyOf(s, n + 1)) == EncodeAll(BodyOf(s, n))
            + Encode(s[n - 1].lo - s[n].hi - 2) + Encode(s[n].hi - s[n].lo)
  {
    hide Encode;
    BodyOfBelow(s, n);
    BodyOfBelow(s, n + 1);
    var bs := BlocksOf(s);
    BlocksOfAt(s, n - 1);
    assert bs[..n] == bs[..n - 1] + [bs[n - 1]];
    FlatSnoc(bs[..n - 1], bs[n - 1]);
    var g, r := bs[n - 1].gap, bs[n - 1].range;
    assert s[n].hi + 1 < s[n - 1].lo;
    assert BodyOf(s, n + 1) == BodyOf(s, n) + [g, r];
    EncodeAllAppend(BodyOf(s, n), [g, r]);
    EncodeTwo(g, r);
  }

  lemma EncodeTwo(a: nat, b: nat)
    requires a < U64 && b < U64
    ensures All64([a, b]) && EncodeAll([a, b]) == Encode(a) + Encode(b)
    ensures All64([a]) && EncodeAll([a]) == Encode(a)
  {
    hide Encode;
    assert [a, b][1..] == [b] && [b][1..] == [] && [a][1..] == [];
    assert EncodeAll([b]) == Encode(b) + EncodeAll([]);
    assert EncodeAll([a, b]) == Encode(a) + EncodeAll([b]);
  }

  /** The bytes of a frame reporting the first n ranges. */
  lemma FrameBytesOf(s: seq<Range>, delay: nat, n: nat)
    requires Normal(s) && 1 <= n <= |s| && n <= MAX_BLOCKS + 1
    requires s[0].hi < VARINT_LIMIT && delay < U64
    ensures Encodable(FrameOf(s[..n], delay)) && All64(BodyOf(s, n))
    ensures FrameBytes(FrameOf(s[..n], delay)) == [FRAME_TYPE_ACK] + Encode(s[0].hi)
            + Encode(delay) + [n - 1] + EncodeAll(BodyOf(s, n))
  {
    hide Encode;
    BodyOfBelow(s, n);
    BlocksOf62(s[..n]);
    BlocksOfPrefix(s, n);
    var f := FrameOf(s[..n], delay);
    assert Body(f) == BodyOf(s, n);
    EncodeTwo(f.largest, delay);
    EncodeTwo(n - 1, 0);
    assert Head(f) == [f.largest, delay] + [n - 1];
    EncodeAllAppend([f.largest, delay], [n - 1]);
    SmallByte(n - 1);
  }

  lemma SmallByte(n: nat)
    requires n < 64
    ensures Encode(n) == [n]
  {
  }

  /** One gap and one range, if both fit. When they do not, what lies after `at` is lost. */
  method PutBlock(buf: array<byte>, at: nat, max: nat, gap: nat, range: nat)
    returns (length: nat)
    requires at <= max <= buf.Length && gap < U64 && range < U64
    modifies buf
    ensures length == if at + |Encode(gap)| + |Encode(range)| <= max
                      then |Encode(gap)| + |Encode(range)| else 0
    ensures buf[..at + length]
         == old(buf[..at]) + if length > 0 then Encode(gap) + Encode(range) else []
  {
    hide Encode;
    ghost var pre := buf[..at];
    var lGap, lRange := 0, 0;
    if at < max {
      lGap := VarintEncode(buf, at, max - at, gap);
    }
    if at + lGap < max {
      ghost var mid := buf[..at + lGap];
      lRange := VarintEncode(buf, at + lGap, max - at - lGap, range);
      assert buf[..at + lGap + lRange] == mid + if lRange > 0 then Encode(range) else [];
      assert buf[..at] == (mid + if lRange > 0 then Encode(range) else [])[..at] == pre;
    }
    if lGap == 0 || lRange == 0 {
      assert buf[..at] == pre;
      return 0;
    }
    return lGap + lRange;
  }

  /** The loop over the ranges after the first: as many as fit, at most 63. */
  method PrepareBlocks(buf: array<byte>, max: nat, s: seq<Range>, ghost pre: seq<byte>, from: nat)
    returns (at: nat, n: nat)
    requires Normal(s) && s != [] && s[0].hi < VARINT_LIMIT && All64(BodyOf(s, 1))
    requires from <= max <= buf.Length && buf[..from] == pre + EncodeAll(BodyOf(s, 1))
    modifies buf
    ensures from <= at <= max && 1 <= n <= |s| && n <= MAX_BLOCKS + 1
    ensures All64(BodyOf(s, n)) && buf[..at] == pre + EncodeAll(BodyOf(s, n))
    ensures n == |s| || n == MAX_BLOCKS + 1 || NoRoom(s, n, at, max)
  {
    hide Encode, EncodeAll, BlocksOf, Flat, BodyOf;
    at, n := from, 1;
    var lowest := s[0].lo;
    while n - 1 < MAX_BLOCKS && n < |s|
      invariant from <= at <= max && 1 <= n <= |s| && n <= MAX_BLOCKS + 1
      invariant lowest == s[n - 1].lo
      invariant All64(BodyOf(s, n)) && buf[..at] == pre + EncodeAll(BodyOf(s, n))
    {
      BodyOfNext(s, n);
      var l := PutBlock(buf, at, max, lowest - s[n].hi - 2, s[n].hi - s[n].lo);
      if l == 0 { break; }
      at, lowest, n := at + l, s[n].lo, n + 1;
    }
  }

  /** The range after the first n does not fit behind `at`. */
  ghost predicate NoRoom(s: seq<Range>, n: nat, at: nat, max: nat)
    requires Normal(s) && s != [] && s[0].hi < VARINT_LIMIT
  {
    && 1 <= n < |s| && 2 <= s[n - 1].lo - s[n].hi < U64 && s[n].hi < U64
    && at + |Encode(s[n - 1].lo - s[n].hi - 2)| + |Encode(s[n].hi - s[n].lo)| > max
  }

  /** The part of the frame before the blocks, with a byte left for the block count. */
  method PrepareHeader(buf: array<byte>, max: nat, largest: nat, delay: nat, first: nat)
    returns (ok: bool, countAt: nat, at: nat)
    requires largest < U64 && delay < U64 && first < U64 && 1 <= max <= buf.Length
    modifies buf
    ensures ok <==> 1 + |Encode(largest)| + |Encode(delay)| + 1 + |Encode(first)| <= max
    ensures ok ==>
      && countAt + 1 <= at <= max
      && buf[..countAt] == [FRAME_TYPE_ACK] + Encode(largest) + Encode(delay)
      && buf[..at] == buf[..countAt + 1] + Encode(first)
  {
    hide Encode;
    var lLargest, lDelay, lFirst := 0, 0, 0;
    buf[0] := FRAME_TYPE_ACK;
    at := 1;
    assert buf[..1] == [FRAME_TYPE_ACK];
    if at < max {
      lLargest := VarintEncode(buf, at, max - at, largest);
      at := at + lLargest;
    }
    if at < max {
      lDelay := VarintEncode(buf, at, max - at, delay);
      at := at + lDelay;
    }
    countAt := at;
    ghost var head := buf[..at];
    at := at + 1;
    if at < max {
      lFirst := VarintEncode(buf, at, max - at, first);
      at := at + lFirst;
    }
    ok := !(lDelay == 0 || lLargest == 0 || lFirst == 0 || at > max);
    if ok {
      assert buf[..countAt + 1] == buf[..at][..countAt + 1];
      assert buf[..countAt] == buf[..countAt + 1][..countAt];
    }
  }

  /** picoquic_prepare_ack_frame_maybe_ecn without ECN: writes a frame reporting the first
      n ranges, n as large as the buffer and the 63 blocks allow. */
  method Prepare(buf: array<byte>, max: nat, s: seq<Range>, delay: nat)
    returns (ret: int, consumed: nat, n: nat)
    requires Normal(s) && (s != [] ==> s[0].hi < VARINT_LIMIT) && delay < U64
    requires max <= buf.Length
    modifies buf
    ensures s == [] ==> ret == 0 && consumed == 0
    ensures s != [] ==> ret == if max >= 13 && HeaderLength(s, delay) <= max then 0
                               else FRAME_BUFFER_TOO_SMALL
    ensures ret != 0 ==> consumed == 0
    ensures s != [] && ret == 0 ==>
      && 1 <= n <= |s| && n <= MAX_BLOCKS + 1 && consumed <= max
      && Encodable(FrameOf(s[..n], delay))
      && buf[..consumed] == FrameBytes(FrameOf(s[..n], delay))
      && (n == |s| || n == MAX_BLOCKS + 1 || NoRoom(s, n, consumed, max))
  {
    hide Encode, EncodeAll, BlocksOf, Flat, FrameBytes;
    ret, consumed, n := 0, 0, 0;
    if s == [] { return; }
    if max < 13 { return FRAME_BUFFER_TOO_SMALL, 0, 0; }
    var ok, countAt, at := PrepareHeader(buf, max, s[0].hi, delay, s[0].hi - s[0].lo);
    if !ok { return FRAME_BUFFER_TOO_SMALL, 0, 0; }
    BodyOfBelow(s, 1);
    EncodeTwo(s[0].hi - s[0].lo, 0);
    assert BlocksOf(s)[..0] == [];
    assert BodyOf(s, 1) == [s[0].hi - s[0].lo];
    ghost var head, pre := buf[..countAt], buf[..countAt + 1];
    consumed, n := PrepareBlocks(buf, max, s, pre, at);
    buf[countAt] := n - 1;
    FrameBytesOf(s, delay, n);
    assert buf[..consumed] == head + [n - 1] + EncodeAll(BodyOf(s, n));
  }
}
