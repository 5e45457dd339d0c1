/** Forgetting ranges whose acknowledgement has itself been acknowledged
    (picoquic/frames.c). */
module AckOfAck {

  import opened Varint
  import opened SackList
  import opened AckFrame

  // ------------------------------------------------------------------------------ one range

  /** Removes the range equal to lo..hi, if there is one. */
  function RemoveMatch(s: seq<Range>, lo: nat, hi: nat): seq<Range> {
    if s == [] then []
    else if s[0] == Range(lo, hi) then s[1..]
    else if s[0].hi > hi then [s[0]] + RemoveMatch(s[1..], lo, hi)
    else s
  }

  /** process_ack_of_ack_range: the first range is shortened, never removed; any other is
      removed if it matches exactly. */
  function Prune(s: seq<Range>, lo: nat, hi: nat): seq<Range> {
    if s == [] then []
    else if s[0].lo == lo then
      [Range(if hi < s[0].hi then hi + 1 else s[0].hi, s[0].hi)] + s[1..]
    else [s[0]] + RemoveMatch(s[1..], lo, hi)
  }

  lemma {:induction false} RemoveMatchNormal(s: seq<Range>, lo: nat, hi: nat)
    requires Normal(s)
    ensures Normal(RemoveMatch(s, lo, hi))
    ensures RemoveMatch(s, lo, hi) != [] ==> s != [] && RemoveMatch(s, lo, hi)[0].hi <= s[0].hi
    decreases |s|
  {
    if s != [] && s[0] != Range(lo, hi) && s[0].hi > hi {
      RemoveMatchNormal(s[1..], lo, hi);
      NormalCons(s[0], RemoveMatch(s[1..], lo, hi));
    }
  }

  /** Pruning keeps the normal form and the largest number. */
  lemma PruneNormal(s: seq<Range>, lo: nat, hi: nat)
    requires Normal(s) && lo <= hi
    ensures Normal(Prune(s, lo, hi))
    ensures s != [] ==> Prune(s, lo, hi) != [] && Prune(s, lo, hi)[0].hi == s[0].hi
  {
    if s != [] {
      if s[0].lo == lo {
        if |s| > 1 { assert s[1].hi + 1 < s[0].lo; }
        NormalCons(Prune(s, lo, hi)[0], s[1..]);
      } else {
        RemoveMatchNormal(s[1..], lo, hi);
        NormalCons(s[0], RemoveMatch(s[1..], lo, hi));
      }
    }
  }

  /** An acknowledged range is forgotten when the first range starts where it does, however far
      that one has grown since, or when it is one of the other ranges. */
  ghost predicate Forgets(s: seq<Range>, r: Range) {
    s != [] && (s[0].lo == r.lo || r in s[1..])
  }

  /** The ranges after the first, and their numbers, lie below it. */
  lemma Below(s: seq<Range>, r: Range, x: int)
    requires Normal(s) && s != []
    ensures Normal(s[1..]) && s[0].lo <= s[0].hi
    ensures r in s <==> r == s[0] || r in s[1..]
    ensures r in s[1..] ==> r.hi < s[0].lo
    ensures Has(s[1..], x) ==> x < s[0].lo
    ensures Has(s, x) <==> s[0].lo <= x <= s[0].hi || Has(s[1..], x)
  {
    assert s == [s[0]] + s[1..];
    HasCons(s[0], s[1..], x);
  }

  lemma {:induction false} RemoveMatchExact(s: seq<Range>, lo: nat, hi: nat, x: int)
    requires Normal(s) && lo <= hi
    ensures Has(RemoveMatch(s, lo, hi), x) <==> Has(s, x) && !(lo <= x <= hi && Range(lo, hi) in s)
    decreases |s|
  {
    if s != [] {
      hide Has, Normal;
      Below(s, Range(lo, hi), x);
      if s[0] != Range(lo, hi) && s[0].hi > hi {
        RemoveMatchExact(s[1..], lo, hi, x);
        HasCons(s[0], RemoveMatch(s[1..], lo, hi), x);
      }
    }
  }

  /** Exactly what is lost: the acknowledged range, if it is one to be forgotten, and never the
      largest number. */
  lemma PruneExact(s: seq<Range>, lo: nat, hi: nat, x: int)
    requires Normal(s) && lo <= hi
    ensures Has(Prune(s, lo, hi), x) <==>
              Has(s, x) && !(lo <= x <= hi && Forgets(s, Range(lo, hi)) && x != s[0].hi)
  {
    if s != [] {
      hide Has, Normal;
      Below(s, Range(lo, hi), x);
      if s[0].lo == lo {
        HasCons(Prune(s, lo, hi)[0], s[1..], x);
      } else {
        RemoveMatchExact(s[1..], lo, hi, x);
        HasCons(s[0], RemoveMatch(s[1..], lo, hi), x);
      }
    }
  }

  /** Membership in a changed list `t` compared with the list `s` it came from: nothing is
      added, and only numbers from lo to hi may be gone. */
  ghost predicate OnlyLoses(s: seq<Range>, t: seq<Range>, lo: nat, hi: nat, x: int) {
    (Has(t, x) ==> Has(s, x)) && (Has(s, x) && !(lo <= x <= hi) ==> Has(t, x))
  }

  /** So pruning adds nothing and removes nothing outside the acknowledged range. */
  lemma PruneHas(s: seq<Range>, lo: nat, hi: nat, x: int)
    requires Normal(s) && lo <= hi
    ensures OnlyLoses(s, Prune(s, lo, hi), lo, hi, x)
    ensures s != [] && x == s[0].hi ==> Has(Prune(s, lo, hi), x)
  {
    PruneExact(s, lo, hi, x);
    if s != [] { assert s[0].lo <= s[0].hi; }
    hide Prune;
  }

  // ------------------------------------------------------------------------- all of a frame

  function PruneAll(s: seq<Range>, rs: seq<Range>): seq<Range>
    decreases |rs|
  {
    if rs == [] then s else PruneAll(Prune(s, rs[0].lo, rs[0].hi), rs[1..])
  }

  /** The same for all ranges of a frame. */
  lemma {:induction false} PruneAllNormal(s: seq<Range>, rs: seq<Range>)
    requires Normal(s) && Normal(rs)
    ensures Normal(PruneAll(s, rs))
    ensures s != [] ==> PruneAll(s, rs) != [] && PruneAll(s, rs)[0].hi == s[0].hi
    decreases |rs|
  {
    if rs != [] {
      PruneNormal(s, rs[0].lo, rs[0].hi);
      PruneAllNormal(Prune(s, rs[0].lo, rs[0].hi), rs[1..]);
    }
  }

  lemma {:induction false} PruneAllHas(s: seq<Range>, rs: seq<Range>, x: int)
    requires Normal(s) && Normal(rs)
    ensures Has(PruneAll(s, rs), x) ==> Has(s, x)
    ensures Has(s, x) && !Has(rs, x) ==> Has(PruneAll(s, rs), x)
    decreases |rs|
  {
    hide Has, Prune;
    if rs != [] {
      PruneHas(s, rs[0].lo, rs[0].hi, x);
      PruneNormal(s, rs[0].lo, rs[0].hi);
      PruneAllHas(Prune(s, rs[0].lo, rs[0].hi), rs[1..], x);
      assert rs == [rs[0]] + rs[1..];
      HasCons(rs[0], rs[1..], x);
    }
  }

  /** Other ranges than the one removed stay. */
  lemma {:induction false} RemoveMatchOthers(s: seq<Range>, lo: nat, hi: nat, r: Range)
    requires r != Range(lo, hi)
    ensures r in RemoveMatch(s, lo, hi) <==> r in s
    decreases |s|
  {
    if s != [] {
      assert s == [s[0]] + s[1..];
      RemoveMatchOthers(s[1..], lo, hi, r);
    }
  }

  /** Pruning by one range does not change what becomes of a lower one. */
  lemma ForgetsLower(s: seq<Range>, lo: nat, hi: nat, r: Range)
    requires Normal(s) && lo <= hi && r.hi < lo && r.lo <= r.hi
    ensures Forgets(Prune(s, lo, hi), r) <==> Forgets(s, r)
  {
    if s != [] { RemoveMatchOthers(s[1..], lo, hi, r); }
  }

  /** x lies in a range of the frame that is to be forgotten. */
  ghost predicate Forgotten(s: seq<Range>, rs: seq<Range>, x: int) {
    exists k :: 0 <= k < |rs| && rs[k].lo <= x <= rs[k].hi && Forgets(s, rs[k])
  }

  lemma ForgottenFirst(s: seq<Range>, rs: seq<Range>, x: int)
    requires Normal(s) && Normal(rs) && rs != []
    ensures Forgotten(s, rs, x) <==>
              (rs[0].lo <= x <= rs[0].hi && Forgets(s, rs[0]))
              || Forgotten(Prune(s, rs[0].lo, rs[0].hi), rs[1..], x)
  {
    var t, rest := Prune(s, rs[0].lo, rs[0].hi), rs[1..];
    forall k | 0 <= k < |rest| ensures Forgets(t, rest[k]) <==> Forgets(s, rs[k + 1]) {
      assert rest[k] == rs[k + 1] && rs[k + 1].hi + 1 < rs[0].lo;
      ForgetsLower(s, rs[0].lo, rs[0].hi, rs[k + 1]);
    }
    hide Forgets, Prune;
    if Forgotten(s, rs, x) {
      var k :| 0 <= k < |rs| && rs[k].lo <= x <= rs[k].hi && Forgets(s, rs[k]);
      if k > 0 { assert rest[k - 1] == rs[k]; }
    }
    if Forgotten(t, rest, x) {
      var k :| 0 <= k < |rest| && rest[k].lo <= x <= rest[k].hi && Forgets(t, rest[k]);
      assert rs[k + 1] == rest[k];
    }
  }

  /** Exactly what the acknowledgement of a whole frame makes a list forget, whatever has become
      of the list since the frame was written. */
  lemma {:induction false} PruneAllExact(s: seq<Range>, rs: seq<Range>, x: int)
    requires Normal(s) && Normal(rs)
    ensures Has(PruneAll(s, rs), x) <==>
              Has(s, x) && !(Forgotten(s, rs, x) && s != [] && x != s[0].hi)
    decreases |rs|
  {
    if rs != [] {
      hide Has, Prune, Forgotten, Forgets;
      PruneExact(s, rs[0].lo, rs[0].hi, x);
      PruneNormal(s, rs[0].lo, rs[0].hi);
      ForgottenFirst(s, rs, x);
      PruneAllExact(Prune(s, rs[0].lo, rs[0].hi), rs[1..], x);
      PruneNone(rs[0].lo, rs[0].hi);
    }
  }

  lemma PruneNone(lo: nat, hi: nat)
    ensures Prune([], lo, hi) == []
  {
  }

  /** Matching ranges right after the first are removed one by one. */
  lemma {:induction false} PruneOwn(head: Range, s: seq<Range>, k: nat)
    requires Normal([head] + s) && k <= |s|
    ensures PruneAll([head] + s, s[..k]) == [head] + s[k..]
    decreases k
  {
    var t := [head] + s;
    if k == 0 {
      assert s[..0] == [] && s[0..] == s;
    } else {
      assert t[1].hi + 1 < t[0].lo && t[1] == s[0];
      assert t[1..] == s && s[..k][0] == s[0] && s[..k][1..] == s[1..][..k - 1];
      assert Prune(t, s[0].lo, s[0].hi) == [head] + s[1..];
      Tail(head, s);
      PruneOwn(head, s[1..], k - 1);
      assert s[1..][k - 1..] == s[k..];
    }
  }

  lemma Tail(head: Range, s: seq<Range>)
    requires Normal([head] + s) && s != []
    ensures Normal([head] + s[1..])
  {
    var t := [head] + s;
    assert t[1..] == s;
    assert head == t[0];
    if |s| > 1 { assert t[2].hi + 1 < t[0].lo; }
    NormalCons(head, s[1..]);
  }

  /** The first range of one's own frame leaves the largest number in its place. */
  lemma OwnFirst(s: seq<Range>)
    requires Normal(s) && s != []
    ensures Prune(s, s[0].lo, s[0].hi) == [Range(s[0].hi, s[0].hi)] + s[1..]
    ensures Normal([Range(s[0].hi, s[0].hi)] + s[1..])
  {
    if |s| > 1 { assert s[1].hi + 1 < s[0].lo; }
    NormalCons(Range(s[0].hi, s[0].hi), s[1..]);
  }

  /** Acknowledging the ACK frame of the first k ranges of an unchanged list leaves the
      largest number and the ranges that were not reported. */
  lemma OwnFrame(s: seq<Range>, k: nat)
    requires Normal(s) && 1 <= k <= |s|
    ensures PruneAll(s, s[..k]) == [Range(s[0].hi, s[0].hi)] + s[k..]
  {
    hide *;
    OwnFirst(s);
    PruneOwn(Range(s[0].hi, s[0].hi), s[1..], k - 1);
    PruneAllFirst(s, s[0], s[1..][..k - 1]);
    assert s[..k] == [s[0]] + s[1..][..k - 1];
    assert s[1..][k - 1..] == s[k..];
  }

  // ------------------------------------------------------------- walking over the wire bytes

  /** The ranges read from the bytes after the block count: `left` blocks follow the first
      range. Reading stops at the first error. */
  function Walk(s: seq<byte>, left: nat, largest: nat): Expansion
    decreases left
  {
    match Decode(s)
    case None => Expansion([], false)
    case Some(d) =>
      if largest < d.value then Expansion([], false)
      else
        var r := Range(largest - d.value, largest);
        if left == 0 then Expansion([r], true)
        else
          match Decode(s[d.length..])
          case None => Expansion([r], false)
          case Some(g) =>
            var skip := g.value + 1 + (d.value + 1);
            if largest < skip then Expansion([r], false)
            else
              var e := Walk(s[d.length + g.length..], left - 1, largest - skip);
              Expansion([r] + e.ranges, e.ok)
  }

  /** All ranges of a frame; none when its header cannot be read. */
  function WalkFrame(s: seq<byte>): Expansion {
    if s == [] then Expansion([], false) else
      match DecodeAll(s[1..], 3)
      case None => Expansion([], false)
      case Some(h) => Walk(s[1 + h.length..], h.value[2], h.value[0])
  }

  /** One step of the walk at position `at`, when everything can be read. */
  lemma WalkStep(s: seq<byte>, at: nat, left: nat, largest: nat, d: Decoded, g: Decoded)
    requires at <= |s| && left > 0 && d.value <= largest
    requires Decode(s[at..]) == Some(d) && Decode(s[at + d.length..]) == Some(g)
    ensures var skip := g.value + 1 + (d.value + 1);
            largest >= skip ==>
              var e := Walk(s[at + d.length + g.length..], left - 1, largest - skip);
              Walk(s[at..], left, largest)
              == Expansion([Range(largest - d.value, largest)] + e.ranges, e.ok)
    ensures largest < g.value + 1 + (d.value + 1) ==>
              Walk(s[at..], left, largest)
              == Expansion([Range(largest - d.value, largest)], false)
  {
    hide Decode;
    assert s[at..][d.length..] == s[at + d.length..];
    assert s[at..][d.length + g.length..] == s[at + d.length + g.length..];
  }

  /** The cases in which the walk ends at position `at`. */
  lemma WalkEnds(s: seq<byte>, at: nat, left: nat, largest: nat)
    requires at <= |s|
    ensures Decode(s[at..]).None? ==> Walk(s[at..], left, largest) == Expansion([], false)
    ensures Decode(s[at..]).Some? ==>
      var d := Decode(s[at..]).value;
      && (d.value > largest ==> Walk(s[at..], left, largest) == Expansion([], false))
      && (d.value <= largest ==>
            var r := Range(largest - d.value, largest);
            && (left == 0 ==> Walk(s[at..], left, largest) == Expansion([r], true))
            && (left > 0 && Decode(s[at + d.length..]).None? ==>
                  Walk(s[at..], left, largest) == Expansion([r], false)))
  {
    hide Decode;
    if Decode(s[at..]).Some? {
      assert s[at..][Decode(s[at..]).value.length..] == s[at + Decode(s[at..]).value.length..];
    }
  }

  /** A body on the wire: the first length, then gap and body of what remains. */
  lemma BodySplit(length: nat, bs: seq<Block>)
    requires Blocks62(bs) && length < VARINT_LIMIT
    ensures All64([length] + Flat(bs)) && All64(Flat(bs))
    ensures EncodeAll([length] + Flat(bs)) == Encode(length) + EncodeAll(Flat(bs))
    ensures bs != [] ==>
      && All64([bs[0].range] + Flat(bs[1..]))
      && EncodeAll(Flat(bs)) == Encode(bs[0].gap) + EncodeAll([bs[0].range] + Flat(bs[1..]))
  {
    assert length < U64;
    hide *;
    FlatBelow(bs);
    EncodeAllCons(length, Flat(bs));
    if bs != [] {
      var t := Tail62(bs);
      FlatBelow(t);
      EncodeAllCons(bs[0].range, Flat(t));
      EncodeAllCons(bs[0].gap, [bs[0].range] + Flat(t));
    }
  }

  lemma Tail62(bs: seq<Block>) returns (t: seq<Block>)
    requires Blocks62(bs) && bs != []
    ensures t == bs[1..] && Blocks62(t) && bs[0].gap < U64 && bs[0].range < U64
    ensures Flat(bs) == [bs[0].gap] + ([bs[0].range] + Flat(t))
  {
    t := bs[1..];
  }

  lemma {:induction false} WalkBody(largest: nat, length: nat, bs: seq<Block>, rest: seq<byte>)
    requires Blocks62(bs) && length < VARINT_LIMIT
    ensures All64([length] + Flat(bs))
    ensures Walk(EncodeAll([length] + Flat(bs)) + rest, |bs|, largest)
         == ExpandFrom(largest, length, bs)
    decreases |bs|
  {
    hide Encode, Decode, EncodeAll, Walk, Flat;
    BodySplit(length, bs);
    var e, tail := Encode(length), EncodeAll(Flat(bs)) + rest;
    var s := EncodeAll([length] + Flat(bs)) + rest;
    assert s == e + tail && s[0..] == s && s[|e|..] == tail;
    RoundTrip(length, tail);
    WalkEnds(s, 0, |bs|, largest);
    if bs != [] && largest >= length {
      var g, body := Encode(bs[0].gap), EncodeAll([bs[0].range] + Flat(bs[1..])) + rest;
      assert tail == g + body && s[|e| + |g|..] == body;
      RoundTrip(bs[0].gap, body);
      WalkStep(s, 0, |bs|, largest, Decoded(length, |e|), Decoded(bs[0].gap, |g|));
      var skip := bs[0].gap + 1 + (length + 1);
      if largest >= skip {
        WalkBody(largest - skip, bs[0].range, bs[1..], rest);
      }
    }
  }

  /** On a frame this end has sent, walking over the bytes visits the ranges of the frame. */
  lemma WalkOwnFrame(f: Frame, rest: seq<byte>)
    requires Encodable(f)
    ensures WalkFrame(FrameBytes(f) + rest) == Expand(f)
  {
    hide Encode, Decode, EncodeAll, DecodeAll, Walk;
    FieldsBelow(f);
    var s := FrameBytes(f) + rest;
    var h, b := EncodeAll(Head(f)), EncodeAll(Body(f));
    assert s[1..] == h + (b + rest);
    DecodeAllEncodeAll(Head(f), b + rest);
    assert s[1 + |h|..] == b + rest;
    WalkBody(f.largest, f.first, f.blocks, rest);
  }

  /** The walk over the bytes written for the first n ranges of a list visits these. */
  lemma OwnWalk(s: seq<Range>, n: nat, delay: nat, rest: seq<byte>)
    requires Normal(s) && 1 <= n <= |s| && n <= MAX_BLOCKS + 1 && s[0].hi < VARINT_LIMIT && delay < U64
    ensures Normal(s[..n]) && Encodable(FrameOf(s[..n], delay))
    ensures WalkFrame(FrameBytes(FrameOf(s[..n], delay)) + rest) == Expansion(s[..n], true)
  {
    hide WalkFrame, FrameBytes, Parse, ExpandFrom, BlocksOf;
    PrefixRoundTrip(s, n, delay, rest);
    WalkOwnFrame(FrameOf(s[..n], delay), rest);
    ExpandBlocksOf(s[..n]);
  }

  /** Processing one's own ACK frame, as it was written, against the list it was written for
      leaves the largest number and the ranges that were not encoded. */
  lemma OwnBytes(s: seq<Range>, n: nat, delay: nat, rest: seq<byte>)
    requires Normal(s) && 1 <= n <= |s| && n <= MAX_BLOCKS + 1 && s[0].hi < VARINT_LIMIT && delay < U64
    ensures Normal(s[..n]) && Encodable(FrameOf(s[..n], delay))
    ensures var e := WalkFrame(FrameBytes(FrameOf(s[..n], delay)) + rest);
            e.ok && PruneAll(s, e.ranges) == [Range(s[0].hi, s[0].hi)] + s[n..]
  {
    OwnWalk(s, n, delay, rest);
    OwnFrame(s, n);
  }

  // ---------------------------------------------------------------- the loops of frames.c

  /** process_ack_of_ack_range, in place. */
  method PruneRange(sacks: Sacks, lo: nat, hi: nat)
    requires Normal(sacks.items)
    modifies sacks
    ensures sacks.items == Prune(old(sacks.items), lo, hi)
  {
    var s := sacks.items;
    if s == [] { return; }
    if s[0].lo == lo {
      if hi < s[0].hi {
        sacks.items := s[0 := Range(hi + 1, s[0].hi)];
      } else {
        sacks.items := s[0 := Range(s[0].hi, s[0].hi)];
      }
      return;
    }
    var i := 1;
    assert s[..1] == [s[0]] && Prune(s, lo, hi) == s[..1] + RemoveMatch(s[1..], lo, hi);
    hide Normal, Prune, RemoveMatch;
    while i < |s|
      invariant 1 <= i <= |s| && sacks.items == s
      invariant Prune(s, lo, hi) == s[..i] + RemoveMatch(s[i..], lo, hi)
    {
      MatchAt(s, i, lo, hi);
      if s[i].hi == hi && s[i].lo == lo {
        sacks.items := s[..i] + s[i + 1..];
        return;
      } else if s[i].hi > hi {
        i := i + 1;
      } else {
        return;
      }
    }
    MatchNone(s, lo, hi);
  }

  /** One step along the list. */
  lemma MatchAt(s: seq<Range>, i: nat, lo: nat, hi: nat)
    requires i < |s|
    ensures s[..i] + RemoveMatch(s[i..], lo, hi)
         == if s[i].hi == hi && s[i].lo == lo then s[..i] + s[i + 1..]
            else if s[i].hi > hi then s[..i + 1] + RemoveMatch(s[i + 1..], lo, hi)
            else s
  {
    assert s[i..][0] == s[i] && s[i..][1..] == s[i + 1..] && s[..i] + s[i..] == s;
    assert s[..i + 1] == s[..i] + [s[i]];
  }

  lemma MatchNone(s: seq<Range>, lo: nat, hi: nat)
    ensures s[..|s|] + RemoveMatch(s[|s|..], lo, hi) == s
  {
  }

  lemma PruneAllFirst(s: seq<Range>, r: Range, rs: seq<Range>)
    ensures PruneAll(s, [r] + rs) == PruneAll(Prune(s, r.lo, r.hi), rs)
  {
    assert ([r] + rs)[1..] == rs;
  }

  /** The loop of picoquic_process_ack_of_ack_frame after the header. */
  method PruneWalk(sacks: Sacks, s: seq<byte>, from: nat, count: nat, top: nat)
    returns (ok: bool)
    requires Normal(sacks.items) && from <= |s|
    modifies sacks
    ensures var e := Walk(s[from..], count, top);
            ok == e.ok && sacks.items == PruneAll(old(sacks.items), e.ranges)
            && Normal(sacks.items)
  {
    hide Decode, Prune, Walk, PruneAll;
    var at: nat, left: nat, largest: nat := from, count, top;
    ghost var e := Walk(s[from..], count, top);
    while true
      invariant at <= |s| && Normal(sacks.items)
      invariant Walk(s[at..], left, largest).ok == e.ok
      invariant PruneAll(sacks.items, Walk(s[at..], left, largest).ranges)
             == PruneAll(old(sacks.items), e.ranges)
      decreases left
    {
      WalkEnds(s, at, left, largest);
      PruneNothing(sacks.items);
      var range, l := VarintDecode(s, at);
      if l == 0 { return false; }
      if largest + 1 < range + 1 { return false; }
      ghost var r := Range(largest - range, largest);
      ghost var before := sacks.items;
      PruneNormal(sacks.items, largest - range, largest);
      PruneRange(sacks, largest - range, largest);
      PruneAllFirst(before, r, []);
      PruneNothing(sacks.items);
      assert [r] + [] == [r];
      if left == 0 { return true; }
      var gap, l' := VarintDecode(s, at + l);
      if l' == 0 { return false; }
      var skip := gap + 1 + (range + 1);
      WalkStep(s, at, left, largest, Decoded(range, l), Decoded(gap, l'));
      if largest < skip { return false; }
      at, left, largest := at + l + l', left - 1, largest - skip;
      PruneAllFirst(before, r, Walk(s[at..], left, largest).ranges);
    }
  }

  /** picoquic_process_ack_of_ack_frame without ECN counts. */
  method ProcessAckOfAck(sacks: Sacks, s: seq<byte>) returns (ret: int)
    requires Normal(sacks.items) && s != []
    modifies sacks
    ensures var e := WalkFrame(s);
            && ret == (if e.ok then 0 else -1)
            && sacks.items == PruneAll(old(sacks.items), e.ranges) && Normal(sacks.items)
  {
    hide Decode, DecodeAll, Reading, Walk, PruneAll;
    ReadingNone(s, 1, 3);
    var largest, l1 := Next(s, 1, 1, [], 3);
    assert PruneAll(sacks.items, []) == sacks.items by { PruneNothing(sacks.items); }
    if l1 == 0 { return -1; }
    assert [] + [largest] == [largest];
    var delay, l2 := Next(s, 1, 1 + l1, [largest], 2);
    if l2 == 0 { return -1; }
    assert [largest] + [delay] == [largest, delay];
    var count, l3 := Next(s, 1, 1 + l1 + l2, [largest, delay], 1);
    if l3 == 0 { return -1; }
    assert [largest, delay] + [count] == [largest, delay, count];
    ReadingAll(s, 1, 1 + l1 + l2 + l3, [largest, delay, count]);
    var ok := PruneWalk(sacks, s, 1 + l1 + l2 + l3, count, largest);
    return if ok then 0 else -1;
  }

  lemma PruneNothing(s: seq<Range>)
    ensures PruneAll(s, []) == s
  {
  }
}
