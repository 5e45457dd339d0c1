/** The sender's queue of unacknowledged packets, and whole runs of the loop packet ->
    received list -> ACK frame -> queue (picoquic/frames.c, picoquic/sender.c). */
module AckLoop {

  import opened Varint
  import opened SackList
  import opened AckFrame
  import opened AckOfAck

  // ------------------------------------------------------------------- the retransmit queue

  ghost predicate Descending(q: seq<nat>) {
    forall i, j :: 0 <= i < j < |q| ==> q[i] > q[j]
  }

  /** The queue without the numbers from lo to hi. */
  function Without(q: seq<nat>, lo: nat, hi: nat): seq<nat> {
    if q == [] then []
    else if lo <= q[0] <= hi then Without(q[1..], lo, hi)
    else [q[0]] + Without(q[1..], lo, hi)
  }

  function WithoutAll(q: seq<nat>, rs: seq<Range>): seq<nat>
    decreases |rs|
  {
    if rs == [] then q else WithoutAll(Without(q, rs[0].lo, rs[0].hi), rs[1..])
  }

  lemma {:induction false} WithoutMember(q: seq<nat>, lo: nat, hi: nat, x: nat)
    ensures x in Without(q, lo, hi) <==> x in q && !(lo <= x <= hi)
    decreases |q|
  {
    if q != [] {
      assert q == [q[0]] + q[1..];
      WithoutMember(q[1..], lo, hi, x);
    }
  }

  lemma {:induction false} WithoutDescending(q: seq<nat>, lo: nat, hi: nat)
    requires Descending(q)
    ensures Descending(Without(q, lo, hi))
    decreases |q|
  {
    if q != [] {
      var t := Without(q[1..], lo, hi);
      WithoutDescending(q[1..], lo, hi);
      if !(lo <= q[0] <= hi) {
        forall i | 0 <= i < |t| ensures q[0] > t[i] {
          WithoutMember(q[1..], lo, hi, t[i]);
          var j :| 0 <= j < |q[1..]| && q[1..][j] == t[i];
          assert q[j + 1] == t[i];
        }
      }
    }
  }

  /** What a frame leaves in the queue: the packets outside all of its ranges. */
  lemma {:induction false} WithoutAllMember(q: seq<nat>, rs: seq<Range>, x: nat)
    ensures x in WithoutAll(q, rs) <==> x in q && !Has(rs, x)
    decreases |rs|
  {
    hide Has;
    if rs == [] {
      HasNothing(x);
    } else {
      WithoutMember(q, rs[0].lo, rs[0].hi, x);
      WithoutAllMember(Without(q, rs[0].lo, rs[0].hi), rs[1..], x);
      assert rs == [rs[0]] + rs[1..];
      HasCons(rs[0], rs[1..], x);
    }
  }

  lemma HasNothing(x: int)
    ensures !Has([], x)
  {
  }

  lemma {:induction false} WithoutAllDescending(q: seq<nat>, rs: seq<Range>)
    requires Descending(q)
    ensures Descending(WithoutAll(q, rs))
    decreases |rs|
  {
    if rs != [] {
      WithoutDescending(q, rs[0].lo, rs[0].hi);
      WithoutAllDescending(Without(q, rs[0].lo, rs[0].hi), rs[1..]);
    }
  }

  /** Two descending queues with the same members are the same queue. */
  lemma {:induction false} DescendingUnique(p: seq<nat>, q: seq<nat>)
    requires Descending(p) && Descending(q) && forall x :: x in p <==> x in q
    ensures p == q
    decreases |p|
  {
    if p == [] {
      FirstIn(q);
    } else {
      assert p[0] in q && q != [];
      assert q[0] in p;
      assert p[0] == q[0];
      forall x ensures x in p[1..] <==> x in q[1..] {
        assert p == [p[0]] + p[1..] && q == [q[0]] + q[1..];
        assert x in p <==> x in q;
        NotAgain(p);
        NotAgain(q);
      }
      DescendingUnique(p[1..], q[1..]);
    }
  }

  lemma FirstIn(q: seq<nat>)
    ensures q == [] || q[0] in q
  {
  }

  lemma NotAgain(p: seq<nat>)
    requires Descending(p) && p != []
    ensures p[0] !in p[1..]
  {
    forall i | 0 <= i < |p[1..]| ensures p[1..][i] != p[0] {
      assert p[0] > p[i + 1];
    }
  }

  /** Taking one packet out of the queue. */
  lemma RemoveAt(q: seq<nat>, i: nat)
    requires Descending(q) && i < |q|
    ensures Descending(q[..i] + q[i + 1..])
    ensures forall x :: x in q[..i] + q[i + 1..] <==> x in q && x != q[i]
  {
    var r := q[..i] + q[i + 1..];
    forall x ensures x in r <==> x in q && x != q[i] {
      if x in r {
        var j :| 0 <= j < |r| && r[j] == x;
        assert x == if j < i then q[j] else q[j + 1];
      }
      if x in q && x != q[i] {
        var j :| 0 <= j < |q| && q[j] == x;
        assert x == if j < i then r[j] else r[j - 1];
      }
    }
  }

  /** The queue after a frame: one that acknowledges a number never sent changes nothing. */
  function AfterFrame(queue: seq<nat>, next: nat, f: Frame): seq<nat> {
    if f.largest < next then WithoutAll(queue, Expand(f).ranges) else queue
  }

  class Sender {
    var queue: seq<nat>  // sequence numbers, newest first
    var sendSequence: nat

    /** process_ack_range: takes the numbers lo..highest off the queue, starting at the
        cursor left by the previous range. */
    method ProcessRange(highest: nat, range: nat, cursor: nat) returns (p: nat)
      requires Descending(queue) && cursor <= |queue| && range <= highest + 1
      requires forall i :: 0 <= i < cursor ==> queue[i] > highest
      modifies this`queue
      ensures Descending(queue) && p <= |queue|
      ensures forall i :: 0 <= i < p ==> queue[i] > highest
      ensures range > 0 ==> queue == Without(old(queue), highest + 1 - range, highest)
      ensures range == 0 ==> queue == old(queue)
    {
      p := cursor;
      var top: int, left := highest, range;
      while p < |queue| && left > 0
        invariant Descending(queue) && p <= |queue| && 0 <= left <= range
        invariant top - left == highest - range
        invariant forall i :: 0 <= i < p ==> queue[i] > highest
        invariant forall x :: x in queue <==> x in old(queue) && !(top < x <= highest)
        decreases left + |queue| - p
      {
        if queue[p] > top {
          assert queue[p] in queue;
          p := p + 1;
        } else {
          if queue[p] == top {
            RemoveAt(queue, p);
            queue := queue[..p] + queue[p + 1..];
          }
          left := left - 1;
          top := top - 1;
        }
      }
      if range > 0 {
        ghost var lo := highest + 1 - range;
        WithoutDescending(old(queue), lo, highest);
        forall x: nat ensures x in queue <==> x in Without(old(queue), lo, highest) {
          WithoutMember(old(queue), lo, highest, x);
        }
        DescendingUnique(queue, Without(old(queue), lo, highest));
      } else {
        DescendingUnique(queue, old(queue));
      }
    }

    /** update_rtt leaves the cursor at the newest packet, or moves it to the first packet
        not above the largest number acknowledged when it looks that packet up. */
    method TopPacket(largest: nat, lookUp: bool) returns (p: nat)
      requires Descending(queue)
      ensures p <= |queue| && forall i :: 0 <= i < p ==> queue[i] > largest
    {
      p := 0;
      if lookUp {
        while p < |queue| && queue[p] > largest
          invariant p <= |queue| && forall i :: 0 <= i < p ==> queue[i] > largest
        {
          p := p + 1;
        }
      }
    }

    /** The loop of process_ack_frame_maybe_ecn over the blocks, once the first range has
        been taken off the queue. */
    method ProcessBlocks(top: nat, length: nat, blocks: seq<Block>, cursor: nat)
      returns (ok: bool)
      requires Descending(queue) && cursor <= |queue| && length <= top
      requires forall i :: 0 <= i < cursor ==> queue[i] > top
      modifies this`queue
      ensures Descending(queue)
      ensures ok == ExpandFrom(top, length, blocks).ok
      ensures queue == WithoutAll(old(queue), Later(top, length, blocks))
    {
      hide ExpandFrom, WithoutAll, Without;
      var largest: nat, range: nat, p: nat := top, length + 1, cursor;
      ghost var e, later := ExpandFrom(top, length, blocks), Later(top, length, blocks);
      assert blocks[0..] == blocks;
      for i := 0 to |blocks|
        invariant Descending(queue) && p <= |queue| && 1 <= range <= largest + 1
        invariant forall j :: 0 <= j < p ==> queue[j] > largest
        invariant ExpandFrom(largest, range - 1, blocks[i..]).ok == e.ok
        invariant WithoutAll(queue, Later(largest, range - 1, blocks[i..]))
               == WithoutAll(old(queue), later)
      {
        assert blocks[i..][0] == blocks[i] && blocks[i..][1..] == blocks[i + 1..];
        LaterStep(largest, range - 1, blocks[i..]);
        WithoutNothing(queue);
        var skip := blocks[i].gap + 1 + range;
        if largest < skip { return false; }
        largest := largest - skip;
        range := blocks[i].range + 1;
        if largest + 1 < range { return false; }
        WithoutAllFirst(queue, Range(largest + 1 - range, largest),
                        Later(largest, range - 1, blocks[i + 1..]));
        p := ProcessRange(largest, range, p);
      }
      assert blocks[|blocks|..] == [];
      LaterStep(largest, range - 1, []);
      WithoutNothing(queue);
      return true;
    }

    /** process_ack_frame_maybe_ecn: an acknowledgement of a number that was never sent is
        refused; otherwise exactly the packets in the frame's ranges leave the queue, up to
        the first malformed range. */
    method ProcessFrame(f: Frame, lookUp: bool) returns (ret: int)
      requires Descending(queue)
      modifies this`queue
      ensures Descending(queue)
      ensures ret == if f.largest < sendSequence && Expand(f).ok then 0 else 1
      ensures queue == if f.largest < sendSequence then WithoutAll(old(queue), Expand(f).ranges)
                       else old(queue)
      ensures queue == AfterFrame(old(queue), sendSequence, f)
    {
      hide ExpandFrom, WithoutAll, Without;
      if f.largest >= sendSequence { return 1; }
      var p := TopPacket(f.largest, lookUp);
      LaterStep(f.largest, f.first, f.blocks);
      WithoutNothing(queue);
      if f.largest + 1 < f.first + 1 { return 1; }
      WithoutAllFirst(queue, Range(f.largest - f.first, f.largest),
                      Later(f.largest, f.first, f.blocks));
      p := ProcessRange(f.largest, f.first + 1, p);
      var ok := ProcessBlocks(f.largest, f.first, f.blocks, p);
      return if ok then 0 else 1;
    }
  }

  /** The ranges after the first. */
  function Later(largest: nat, length: nat, blocks: seq<Block>): seq<Range> {
    var rs := ExpandFrom(largest, length, blocks).ranges;
    if rs == [] then [] else rs[1..]
  }

  /** How the ranges of a frame continue after the first. */
  lemma LaterStep(largest: nat, length: nat, blocks: seq<Block>)
    ensures largest < length ==> ExpandFrom(largest, length, blocks) == Expansion([], false)
    ensures largest >= length ==>
      && ExpandFrom(largest, length, blocks).ranges
         == [Range(largest - length, largest)] + Later(largest, length, blocks)
      && (blocks == [] ==> Later(largest, length, blocks) == []
                           && ExpandFrom(largest, length, blocks).ok)
      && (blocks != [] ==>
            var skip := blocks[0].gap + 1 + (length + 1);
            if largest < skip || largest - skip < blocks[0].range
            then Later(largest, length, blocks) == [] && !ExpandFrom(largest, length, blocks).ok
            else
              var t := largest - skip;
              && ExpandFrom(largest, length, blocks).ok
                 == ExpandFrom(t, blocks[0].range, blocks[1..]).ok
              && Later(largest, length, blocks)
                 == [Range(t - blocks[0].range, t)] + Later(t, blocks[0].range, blocks[1..]))
  {
  }

  lemma WithoutAllFirst(q: seq<nat>, r: Range, rs: seq<Range>)
    ensures WithoutAll(q, [r] + rs) == WithoutAll(Without(q, r.lo, r.hi), rs)
  {
    assert ([r] + rs)[1..] == rs;
  }

  lemma WithoutNothing(q: seq<nat>)
    ensures WithoutAll(q, []) == q
  {
  }

  // ------------------------------------------------------------------------------ whole runs

  /** Both ends and everything ever put on the wire: the network may lose, delay, duplicate
      and reorder packets and ACK frames at will, so a frame stays available for ever.
      `recorded` and `acked` only remember the past. */
  datatype State = State(next: nat, queue: seq<nat>,
                         sacks: seq<Range>, frames: set<seq<byte>>,
                         recorded: set<nat>, acked: set<nat>)

  datatype Step =
    | Send                                             // a packet joins the queue
    | Lose(pn: nat)                                    // declared lost, leaves the queue
    | Receive(pn: nat)                                 // the other end records it
    | EmitAck(ranges: nat, delay: nat)                 // ... reports some leading ranges
    | DeliverAck(frame: seq<byte>, rest: seq<byte>)    // ... and the report arrives
    | ForgetAcked(frame: seq<byte>, rest: seq<byte>)   // ... and is itself acknowledged

  const START := State(0, [], [], {}, {}, {})

  /** The queue after an ACK frame at the front of the bytes has been processed. */
  function AfterAck(queue: seq<nat>, next: nat, bytes: seq<byte>): seq<nat> {
    match Parse(bytes)
    case None => queue
    case Some(r) => AfterFrame(queue, next, r.value)
  }

  ghost predicate CanStep(s: State, step: Step) {
    match step
    case Send => s.next < VARINT_LIMIT
    case Lose(pn) => pn in s.queue
    case Receive(pn) => pn < s.next
    case EmitAck(n, delay) =>
      1 <= n <= |s.sacks| && n <= MAX_BLOCKS + 1 && delay < U64
      && Normal(s.sacks) && s.sacks[0].hi < VARINT_LIMIT
    case DeliverAck(frame, rest) => frame in s.frames
    case ForgetAcked(frame, rest) => frame in s.frames
  }

  ghost function Apply(s: State, step: Step): State
    requires CanStep(s, step)
  {
    match step
    case Send => s.(next := s.next + 1, queue := [s.next] + s.queue)
    case Lose(pn) => s.(queue := Without(s.queue, pn, pn))
    case Receive(pn) =>
      s.(sacks := Add(s.sacks, pn, pn), recorded := s.recorded + {pn})
    case EmitAck(n, delay) =>
      AckRoundTrip(s.sacks[..n], delay, []);
      s.(frames := s.frames + {FrameBytes(FrameOf(s.sacks[..n], delay))})
    case DeliverAck(frame, rest) =>
      var q := AfterAck(s.queue, s.next, frame + rest);
      s.(queue := q, acked := s.acked + (set x | x in s.queue && x !in q))
    case ForgetAcked(frame, rest) =>
      s.(sacks := PruneAll(s.sacks, WalkFrame(frame + rest).ranges))
  }

  /** The ranges a frame on the wire was written for. */
  ghost predicate Reports(frame: seq<byte>, rs: seq<Range>, delay: nat, recorded: set<nat>) {
    && Normal(rs) && 0 < |rs| <= MAX_BLOCKS + 1 && rs[0].hi < VARINT_LIMIT && delay < U64
    && Encodable(FrameOf(rs, delay)) && frame == FrameBytes(FrameOf(rs, delay))
    && forall x :: Has(rs, x) ==> x in recorded
  }

  ghost predicate Honest(frame: seq<byte>, recorded: set<nat>) {
    exists rs, delay :: Reports(frame, rs, delay, recorded)
  }

  ghost predicate Inv(s: State) {
    && Descending(s.queue) && (forall x :: x in s.queue ==> x < s.next) && s.next <= VARINT_LIMIT
    && Normal(s.sacks) && (forall x :: Has(s.sacks, x) ==> x in s.recorded)
    && (forall x :: x in s.recorded ==> x < s.next)
    && (forall f :: f in s.frames ==> Honest(f, s.recorded))
    && s.acked <= s.recorded
  }

  /** The states of a run: each step is possible and leads to the next state. */
  ghost predicate IsRun(states: seq<State>, steps: seq<Step>) {
    && |states| == |steps| + 1 && states[0] == START
    && forall i :: 0 <= i < |steps| ==>
         CanStep(states[i], steps[i]) && states[i + 1] == Apply(states[i], steps[i])
  }

  /** What an honest frame does on arrival, among whatever other bytes: it is read without
      error, it names no packet that was not sent, and exactly the packets of the ranges it
      was written for leave the queue. */
  lemma HonestAck(queue: seq<nat>, next: nat, frame: seq<byte>, rest: seq<byte>,
                  rs: seq<Range>, delay: nat, recorded: set<nat>)
    requires Reports(frame, rs, delay, recorded) && forall x :: x in recorded ==> x < next
    ensures Parse(frame + rest).Some?
    ensures var f := Parse(frame + rest).value.value;
            f.largest < next && Expand(f) == Expansion(rs, true)
    ensures AfterAck(queue, next, frame + rest) == WithoutAll(queue, rs)
    ensures WalkFrame(frame + rest) == Expansion(rs, true)
  {
    hide Parse, FrameBytes, ExpandFrom, WalkFrame;
    AckRoundTrip(rs, delay, rest);
    assert Has(rs, rs[0].hi);
    ParseFrameBytes(FrameOf(rs, delay), rest);
    WalkOwnFrame(FrameOf(rs, delay), rest);
    ExpandBlocksOf(rs);
  }

  lemma HonestGrows(frame: seq<byte>, recorded: set<nat>, recorded': set<nat>)
    requires Honest(frame, recorded) && recorded <= recorded'
    ensures Honest(frame, recorded')
  {
    var rs, delay :| Reports(frame, rs, delay, recorded);
    assert Reports(frame, rs, delay, recorded');
  }

  lemma SendKeeps(s: State)
    requires Inv(s) && CanStep(s, Send)
    ensures Inv(Apply(s, Send))
  {
    hide Has, Honest;
    var q := [s.next] + s.queue;
    forall i | 1 <= i < |q| ensures q[i] < s.next {
      assert q[i] == s.queue[i - 1] && s.queue[i - 1] in s.queue;
    }
  }

  lemma LoseKeeps(s: State, pn: nat)
    requires Inv(s) && CanStep(s, Lose(pn))
    ensures Inv(Apply(s, Lose(pn)))
  {
    hide Has, Honest, Without;
    WithoutDescending(s.queue, pn, pn);
    forall x: nat | x in Without(s.queue, pn, pn) ensures x < s.next {
      WithoutMember(s.queue, pn, pn, x);
    }
  }

  lemma ReceiveKeeps(s: State, pn: nat)
    requires Inv(s) && CanStep(s, Receive(pn))
    ensures Inv(Apply(s, Receive(pn)))
  {
    hide Has, Honest, Add;
    var s' := Apply(s, Receive(pn));
    AddNormal(s.sacks, pn, pn);
    forall x | Has(s'.sacks, x) ensures x in s'.recorded {
      AddHas(s.sacks, pn, pn, x);
    }
    forall f | f in s.frames ensures Honest(f, s'.recorded) {
      HonestGrows(f, s.recorded, s'.recorded);
    }
  }

  /** A frame written for leading ranges of the list reports recorded numbers only. */
  lemma EmitReports(sacks: seq<Range>, n: nat, delay: nat, recorded: set<nat>)
    requires Normal(sacks) && 1 <= n <= |sacks| && n <= MAX_BLOCKS + 1 && delay < U64
    requires sacks[0].hi < VARINT_LIMIT && forall x :: Has(sacks, x) ==> x in recorded
    ensures Encodable(FrameOf(sacks[..n], delay))
    ensures Reports(FrameBytes(FrameOf(sacks[..n], delay)), sacks[..n], delay, recorded)
  {
    hide FrameBytes, Has, BlocksOf, Parse, ExpandFrom;
    var rs := sacks[..n];
    assert Normal(rs);
    AckRoundTrip(rs, delay, []);
    forall x | Has(rs, x) ensures x in recorded {
      HasSplit(rs, sacks[n..], x);
      assert rs + sacks[n..] == sacks;
    }
  }

  lemma EmitKeeps(s: State, n: nat, delay: nat)
    requires Inv(s) && CanStep(s, EmitAck(n, delay))
    ensures Inv(Apply(s, EmitAck(n, delay)))
  {
    EmitReports(s.sacks, n, delay, s.recorded);
    hide Has, FrameBytes, BlocksOf, FrameOf, Reports;
    assert Honest(FrameBytes(FrameOf(s.sacks[..n], delay)), s.recorded);
  }

  lemma DeliverKeeps(s: State, frame: seq<byte>, rest: seq<byte>)
    requires Inv(s) && CanStep(s, DeliverAck(frame, rest))
    ensures Inv(Apply(s, DeliverAck(frame, rest)))
  {
    hide Has, WithoutAll, AfterAck;
    var rs, delay :| Reports(frame, rs, delay, s.recorded);
    HonestAck(s.queue, s.next, frame, rest, rs, delay, s.recorded);
    WithoutAllDescending(s.queue, rs);
    forall x: nat
      ensures x in WithoutAll(s.queue, rs) <==> x in s.queue && !Has(rs, x)
    {
      WithoutAllMember(s.queue, rs, x);
    }
  }

  lemma ForgetKeeps(s: State, frame: seq<byte>, rest: seq<byte>)
    requires Inv(s) && CanStep(s, ForgetAcked(frame, rest))
    ensures Inv(Apply(s, ForgetAcked(frame, rest)))
  {
    hide Has, PruneAll, WalkFrame, AfterAck;
    var rs, delay :| Reports(frame, rs, delay, s.recorded);
    HonestAck(s.queue, s.next, frame, rest, rs, delay, s.recorded);
    PruneAllNormal(s.sacks, rs);
    forall x | Has(PruneAll(s.sacks, rs), x) ensures x in s.recorded {
      PruneAllHas(s.sacks, rs, x);
    }
  }

  /** Every step keeps the invariant. */
  lemma StepKeeps(s: State, step: Step)
    requires Inv(s) && CanStep(s, step)
    ensures Inv(Apply(s, step))
  {
    match step
    case Send => SendKeeps(s);
    case Lose(pn) => LoseKeeps(s, pn);
    case Receive(pn) => ReceiveKeeps(s, pn);
    case EmitAck(n, delay) => EmitKeeps(s, n, delay);
    case DeliverAck(frame, rest) => DeliverKeeps(s, frame, rest);
    case ForgetAcked(frame, rest) => ForgetKeeps(s, frame, rest);
  }

  lemma {:induction false} RunKeeps(states: seq<State>, steps: seq<Step>, i: nat)
    requires IsRun(states, steps) && i < |states|
    ensures Inv(states[i])
    decreases i
  {
    if i > 0 {
      RunKeeps(states, steps, i - 1);
      StepKeeps(states[i - 1], steps[i - 1]);
    }
  }

  lemma {:induction false} RecordedMeansReceived(states: seq<State>, steps: seq<Step>, i: nat, pn: nat)
    requires IsRun(states, steps) && i < |states| && pn in states[i].recorded
    ensures exists j :: 0 <= j < i && steps[j] == Receive(pn)
    decreases i
  {
    if pn in states[i - 1].recorded {
      RecordedMeansReceived(states, steps, i - 1, pn);
    } else {
      assert steps[i - 1] == Receive(pn);
    }
  }

  /** Safety of the loop: in every run, a packet that an arriving ACK frame takes off the
      queue was received by the other end at an earlier step. */
  lemma NoFalseAcknowledgement(states: seq<State>, steps: seq<Step>, i: nat, pn: nat)
    requires IsRun(states, steps) && i < |steps| && steps[i].DeliverAck?
    requires pn in states[i].queue && pn !in states[i + 1].queue
    ensures exists j :: 0 <= j < i && steps[j] == Receive(pn)
  {
    RunKeeps(states, steps, i + 1);
    assert pn in states[i + 1].acked;
    assert states[i + 1].recorded == states[i].recorded;
    RecordedMeansReceived(states, steps, i, pn);
  }

  /** Exactness of the loop: in every run, whatever bytes surround it, an ACK frame that
      arrives is accepted and leaves in the queue exactly the packets outside the ranges it
      was written for, in their old order. */
  lemma AckTakesExactlyItsRanges(states: seq<State>, steps: seq<Step>, i: nat)
    requires IsRun(states, steps) && i < |steps| && steps[i].DeliverAck?
    ensures exists rs, delay ::
      && Reports(steps[i].frame, rs, delay, states[i].recorded)
      && Descending(states[i + 1].queue)
      && forall pn: nat :: pn in states[i + 1].queue <==> pn in states[i].queue && !Has(rs, pn)
  {
    hide Has, WithoutAll, AfterAck, Parse, Expand, WalkFrame, Normal;
    RunKeeps(states, steps, i + 1);
    RunKeeps(states, steps, i);
    var s, frame, rest := states[i], steps[i].frame, steps[i].rest;
    var rs, delay :| Reports(frame, rs, delay, s.recorded);
    HonestAck(s.queue, s.next, frame, rest, rs, delay, s.recorded);
    forall pn: nat
      ensures pn in WithoutAll(s.queue, rs) <==> pn in s.queue && !Has(rs, pn)
    {
      WithoutAllMember(s.queue, rs, pn);
    }
  }

  /** Step j wrote the frame, for these ranges of the list as it was then. */
  ghost predicate Wrote(states: seq<State>, steps: seq<Step>, j: int, frame: seq<byte>, rs: seq<Range>)
    requires IsRun(states, steps)
  {
    && 0 <= j < |steps| && steps[j].EmitAck? && 1 <= steps[j].ranges <= |states[j].sacks|
    && rs == states[j].sacks[..steps[j].ranges]
    && Reports(frame, rs, steps[j].delay, states[j].recorded)
  }

  /** In every run a frame on the wire was written at an earlier step. */
  lemma {:induction false} FrameWasWritten(states: seq<State>, steps: seq<Step>, i: nat, frame: seq<byte>)
    returns (j: nat, rs: seq<Range>)
    requires IsRun(states, steps) && i < |states| && frame in states[i].frames
    ensures j < i && Wrote(states, steps, j, frame, rs)
    decreases i
  {
    var k := i - 1;
    assert i > 0;
    if frame in states[k].frames {
      j, rs := FrameWasWritten(states, steps, k, frame);
    } else {
      RunKeeps(states, steps, k);
      j, rs := k, states[k].sacks[..steps[k].ranges];
      hide FrameBytes, Has, BlocksOf;
      EmitReports(states[k].sacks, steps[k].ranges, steps[k].delay, states[k].recorded);
    }
  }

  lemma {:induction false} RecordedGrows(states: seq<State>, steps: seq<Step>, j: nat, i: nat)
    requires IsRun(states, steps) && j <= i < |states|
    ensures states[j].recorded <= states[i].recorded
    decreases i - j
  {
    if j < i { RecordedGrows(states, steps, j, i - 1); }
  }

  /** The same frame, once more has been recorded. */
  lemma StillReports(states: seq<State>, steps: seq<Step>, i: nat, j: nat, frame: seq<byte>, rs: seq<Range>)
    requires IsRun(states, steps) && j <= i < |states| && Wrote(states, steps, j, frame, rs)
    ensures Reports(frame, rs, steps[j].delay, states[i].recorded)
  {
    RecordedGrows(states, steps, j, i);
  }

  /** From end to end: in every run, an ACK frame that arrives was written at an earlier step, and
      leaves in the queue exactly the packets outside the ranges that were then reported of the
      other end's list. */
  lemma AckReportsTheList(states: seq<State>, steps: seq<Step>, i: nat)
    returns (j: nat, rs: seq<Range>)
    requires IsRun(states, steps) && i < |steps| && steps[i].DeliverAck?
    ensures j < i && Wrote(states, steps, j, steps[i].frame, rs)
    ensures forall pn: nat :: pn in states[i + 1].queue <==> pn in states[i].queue && !Has(rs, pn)
  {
    var s, frame, rest := states[i], steps[i].frame, steps[i].rest;
    assert CanStep(s, steps[i]) && states[i + 1] == Apply(s, steps[i]);
    j, rs := FrameWasWritten(states, steps, i, frame);
    RunKeeps(states, steps, i);
    StillReports(states, steps, i, j, frame, rs);
    hide Has, WithoutAll, AfterAck, Parse, Expand, WalkFrame, Normal, Wrote;
    HonestAck(s.queue, s.next, frame, rest, rs, steps[j].delay, s.recorded);
    forall pn: nat
      ensures pn in WithoutAll(s.queue, rs) <==> pn in s.queue && !Has(rs, pn)
    {
      WithoutAllMember(s.queue, rs, pn);
    }
  }

  /** And when such a frame is itself acknowledged, the list forgets exactly the reported ranges that
      it still holds as they were, or as the beginning of its first range; never its largest
      number. */
  lemma ForgetsExactly(states: seq<State>, steps: seq<Step>, i: nat)
    returns (j: nat, rs: seq<Range>)
    requires IsRun(states, steps) && i < |steps| && steps[i].ForgetAcked?
    ensures j < i && Wrote(states, steps, j, steps[i].frame, rs)
    ensures forall x :: Has(states[i + 1].sacks, x) <==>
              && Has(states[i].sacks, x)
              && (Forgotten(states[i].sacks, rs, x) ==> x == states[i].sacks[0].hi)
  {
    var s, frame, rest := states[i], steps[i].frame, steps[i].rest;
    assert CanStep(s, steps[i]) && states[i + 1] == Apply(s, steps[i]);
    j, rs := FrameWasWritten(states, steps, i, frame);
    RunKeeps(states, steps, i);
    StillReports(states, steps, i, j, frame, rs);
    HonestAck(s.queue, s.next, frame, rest, rs, steps[j].delay, s.recorded);
    hide Has, PruneAll, WalkFrame, Parse, Expand, Wrote, Honest, AfterAck;
    assert states[i + 1].sacks == PruneAll(s.sacks, rs);
    forall x
      ensures Has(states[i + 1].sacks, x) <==>
                Has(s.sacks, x) && (Forgotten(s.sacks, rs, x) ==> x == s.sacks[0].hi)
    {
      PruneAllExact(s.sacks, rs, x);
    }
  }

  /** So no received number is forgotten unreported: in every run, a recorded number that is not in
      the list was in the ranges of an acknowledged ACK frame. */
  lemma {:induction false} ForgottenWasReported(states: seq<State>, steps: seq<Step>, i: nat, pn: nat)
    returns (k: nat, j: nat, rs: seq<Range>)
    requires IsRun(states, steps) && i < |states| && pn in states[i].recorded && !Has(states[i].sacks, pn)
    ensures j < k < i && steps[k].ForgetAcked? && Wrote(states, steps, j, steps[k].frame, rs) && Has(rs, pn)
    decreases i
  {
    var h := i - 1;
    assert i > 0;
    assert CanStep(states[h], steps[h]) && states[i] == Apply(states[h], steps[h]);
    RunKeeps(states, steps, h);
    if pn in states[h].recorded && !Has(states[h].sacks, pn) {
      k, j, rs := ForgottenWasReported(states, steps, h, pn);
    } else {
      hide Wrote, PruneAll, WalkFrame, Add, Parse, Expand, Honest;
      if steps[h].Receive? {
        AddHas(states[h].sacks, steps[h].pn, steps[h].pn, pn);
      }
      k := h;
      j, rs := ForgetsExactly(states, steps, h);
    }
  }
}
