/** The receiving side of a stream: buffering frames that arrive out of order and handing
    the bytes to the application in order (picoquic/frames.c). */
module Reassembly {

  import opened Varint
  import opened FlowControl

  /** A buffered run of bytes. */
  datatype Chunk = Chunk(offset: nat, bytes: seq<byte>) {
    function End(): nat { offset + |bytes| }
  }

  /** Chunks are not empty, lie at or above `floor`, and follow each other without overlap. */
  ghost predicate Ordered(cs: seq<Chunk>, floor: nat) {
    && (forall i :: 0 <= i < |cs| ==> cs[i].bytes != [] && floor <= cs[i].offset)
    && (forall i, j {:trigger cs[i].End(), cs[j].offset} ::
          0 <= i < j < |cs| ==> cs[i].End() <= cs[j].offset)
  }

  ghost predicate Covers(cs: seq<Chunk>, x: nat) {
    exists i :: 0 <= i < |cs| && cs[i].offset <= x < cs[i].End()
  }

  lemma CoversCons(c: Chunk, cs: seq<Chunk>, x: nat)
    ensures Covers([c] + cs, x) <==> c.offset <= x < c.End() || Covers(cs, x)
  {
    var t := [c] + cs;
    if c.offset <= x < c.End() {
      assert t[0].offset <= x < t[0].End();
    }
    if Covers(cs, x) {
      var i :| 0 <= i < |cs| && cs[i].offset <= x < cs[i].End();
      assert t[i + 1].offset <= x < t[i + 1].End();
    }
  }

  lemma OrderedCons(c: Chunk, cs: seq<Chunk>, floor: nat)
    requires c.bytes != [] && floor <= c.offset && Ordered(cs, c.End())
    ensures Ordered([c] + cs, floor)
  {
  }

  lemma OrderedTail(cs: seq<Chunk>, floor: nat)
    requires Ordered(cs, floor) && cs != []
    ensures Ordered(cs[1..], cs[0].End()) && cs[0].bytes != [] && floor <= cs[0].offset
  {
    forall i | 0 <= i < |cs[1..]| ensures cs[0].End() <= cs[1..][i].offset {
      assert cs[1..][i] == cs[i + 1];
    }
  }

  // ------------------------------------------------------------------------------- buffering

  /** How much of a frame the application already has. */
  function SkipConsumed(consumed: nat, offset: nat, length: nat): nat {
    if offset > consumed then 0
    else if offset + length <= consumed then length
    else consumed - offset
  }

  /** How much of a frame is already there, once chunk `c` has been looked at. */
  function SkipChunk(c: Chunk, offset: nat, length: nat, start: nat): nat {
    if offset + length <= c.End() then length
    else if offset < c.End() then c.End() - offset
    else start
  }

  /** picoquic_queue_network_input: the first run of missing bytes is stored, up to the next
      chunk. Bytes beyond that chunk are dropped. */
  function Insert(cs: seq<Chunk>, offset: nat, bytes: seq<byte>, start: nat): seq<Chunk> {
    if start >= |bytes| then cs
    else if cs != [] && cs[0].offset <= offset + start then
      [cs[0]] + Insert(cs[1..], offset, bytes, SkipChunk(cs[0], offset, |bytes|, start))
    else
      var end := if cs != [] && cs[0].offset < offset + |bytes| then cs[0].offset - offset
                 else |bytes|;
      [Chunk(offset + start, bytes[start..end])] + cs
  }

  /** Buffering keeps the order of the chunks. */
  lemma {:induction false} InsertOrdered(cs: seq<Chunk>, offset: nat, bytes: seq<byte>, start: nat,
                                         floor: nat)
    requires Ordered(cs, floor) && (start < |bytes| ==> floor <= offset + start)
    ensures Ordered(Insert(cs, offset, bytes, start), floor)
    decreases |cs|
  {
    hide Ordered;
    if start < |bytes| {
      if cs != [] && cs[0].offset <= offset + start {
        OrderedTail(cs, floor);
        var s := SkipChunk(cs[0], offset, |bytes|, start);
        InsertOrdered(cs[1..], offset, bytes, s, cs[0].End());
        OrderedCons(cs[0], Insert(cs[1..], offset, bytes, s), floor);
      } else {
        var c := Insert(cs, offset, bytes, start)[0];
        Raise(cs, floor, c.End());
        OrderedCons(c, cs, floor);
      }
    }
  }

  lemma Raise(cs: seq<Chunk>, floor: nat, floor': nat)
    requires Ordered(cs, floor) && (cs != [] ==> floor' <= cs[0].offset)
    ensures Ordered(cs, floor')
  {
    forall i | 0 <= i < |cs| ensures floor' <= cs[i].offset {
      if i > 0 { assert cs[0].End() <= cs[i].offset; }
    }
  }

  /** The chunk agrees with a stream of bytes. */
  ghost predicate Agrees(c: Chunk, stream: seq<byte>) {
    c.End() <= |stream| && c.bytes == stream[c.offset..c.End()]
  }

  ghost predicate AllAgree(cs: seq<Chunk>, stream: seq<byte>) {
    forall i :: 0 <= i < |cs| ==> Agrees(cs[i], stream)
  }

  /** So does every part of a chunk that agrees. */
  lemma PartAgrees(offset: nat, bytes: seq<byte>, start: nat, end: nat, stream: seq<byte>)
    requires Agrees(Chunk(offset, bytes), stream) && start <= end <= |bytes|
    ensures Agrees(Chunk(offset + start, bytes[start..end]), stream)
  {
    var part := stream[offset + start..offset + end];
    forall i | 0 <= i < end - start ensures bytes[start..end][i] == part[i] {
      assert bytes[start + i] == stream[offset..offset + |bytes|][start + i];
    }
  }

  /** Buffering a frame that agrees with the stream keeps all chunks in agreement. */
  lemma {:induction false} InsertAgrees(cs: seq<Chunk>, offset: nat, bytes: seq<byte>, start: nat,
                                        stream: seq<byte>)
    requires AllAgree(cs, stream) && Agrees(Chunk(offset, bytes), stream)
    ensures AllAgree(Insert(cs, offset, bytes, start), stream)
    decreases |cs|
  {
    if start < |bytes| {
      if cs != [] && cs[0].offset <= offset + start {
        InsertAgrees(cs[1..], offset, bytes, SkipChunk(cs[0], offset, |bytes|, start), stream);
      } else {
        var c := Insert(cs, offset, bytes, start)[0];
        PartAgrees(offset, bytes, start, start + |c.bytes|, stream);
      }
    }
  }

  /** Buffering loses nothing and adds only bytes of the frame. */
  lemma {:induction false} InsertCovers(cs: seq<Chunk>, offset: nat, bytes: seq<byte>, start: nat,
                                        x: nat)
    ensures Covers(cs, x) ==> Covers(Insert(cs, offset, bytes, start), x)
    ensures Covers(Insert(cs, offset, bytes, start), x) ==>
              Covers(cs, x) || offset <= x < offset + |bytes|
    decreases |cs|
  {
    hide Covers;
    if start < |bytes| {
      if cs != [] && cs[0].offset <= offset + start {
        var s := SkipChunk(cs[0], offset, |bytes|, start);
        InsertCovers(cs[1..], offset, bytes, s, x);
        CoversCons(cs[0], cs[1..], x);
        CoversCons(cs[0], Insert(cs[1..], offset, bytes, s), x);
        assert cs == [cs[0]] + cs[1..];
      } else {
        CoversCons(Insert(cs, offset, bytes, start)[0], cs, x);
      }
    }
  }

  /** Byte x, between from and end, is not buffered. */
  ghost predicate Missing(cs: seq<Chunk>, from: nat, end: nat, x: nat) {
    from <= x < end && !Covers(cs, x)
  }

  /** No buffered byte lies between two missing ones. */
  ghost predicate OneGap(cs: seq<Chunk>, from: nat, end: nat) {
    forall x: nat, y: nat, z: nat :: x <= y <= z && Missing(cs, from, end, x) && Missing(cs, from, end, z) ==>
                        Missing(cs, from, end, y)
  }

  ghost predicate HoldsAll(cs: seq<Chunk>, from: nat, end: nat) {
    forall x: nat :: !Missing(cs, from, end, x)
  }

  /** From where the search starts, all of a frame is held afterwards exactly when its
      missing bytes are one run. */
  lemma {:induction false} StoredWholeIff(cs: seq<Chunk>, offset: nat, bytes: seq<byte>, start: nat,
                                          floor: nat)
    requires Ordered(cs, floor) && (start == 0 || offset + start <= floor)
    ensures HoldsAll(Insert(cs, offset, bytes, start), offset + start, offset + |bytes|)
       <==> OneGap(cs, offset + start, offset + |bytes|)
    decreases |cs|
  {
    hide Covers, Ordered;
    var from, end := offset + start, offset + |bytes|;
    var r := Insert(cs, offset, bytes, start);
    if start < |bytes| {
      if cs != [] && cs[0].offset <= from {
        var c, t := cs[0], cs[1..];
        var s := SkipChunk(c, offset, |bytes|, start);
        var u := Insert(t, offset, bytes, s);
        OrderedTail(cs, floor);
        StoredWholeIff(t, offset, bytes, s, c.End());
        assert cs == [c] + t;
        assert r == [c] + u;
        hide Insert, OneGap, HoldsAll;
        forall x: nat ensures Missing(cs, from, end, x) <==> Missing(t, offset + s, end, x) {
          CoversCons(c, t, x);
        }
        forall x: nat ensures Missing(r, from, end, x) <==> Missing(u, offset + s, end, x) {
          CoversCons(c, u, x);
        }
        hide Missing;
        SameMissing(cs, from, t, offset + s, end);
        SameMissing(r, from, u, offset + s, end);
      } else {
        StoredGap(cs, offset, bytes, start, floor);
      }
    }
  }

  lemma StoredGap(cs: seq<Chunk>, offset: nat, bytes: seq<byte>, start: nat, floor: nat)
    requires Ordered(cs, floor) && start < |bytes| && (cs != [] ==> cs[0].offset > offset + start)
    ensures HoldsAll(Insert(cs, offset, bytes, start), offset + start, offset + |bytes|)
       <==> OneGap(cs, offset + start, offset + |bytes|)
  {
    hide Covers, Ordered;
    var from, end := offset + start, offset + |bytes|;
    var r := Insert(cs, offset, bytes, start);
    var stop := from + |r[0].bytes|;
    forall x: nat ensures Missing(r, from, end, x) <==> stop <= x && Missing(cs, from, end, x) {
      CoversCons(r[0], cs, x);
    }
    forall x: nat | from <= x < stop ensures Missing(cs, from, end, x) {
      NotBefore(cs, floor, x);
    }
    if stop < end {
      assert cs == [cs[0]] + cs[1..];
      OrderedTail(cs, floor);
      CoversCons(cs[0], cs[1..], stop);
      assert !Missing(cs, from, end, stop);
    }
    if OneGap(cs, from, end) {
      assert Missing(cs, from, end, from);
      forall z: nat ensures !Missing(r, from, end, z) {
        if stop <= z { assert from <= stop <= z; }
      }
    }
  }

  lemma NotBefore(cs: seq<Chunk>, floor: nat, x: nat)
    requires Ordered(cs, floor) && (cs != [] ==> x < cs[0].offset)
    ensures !Covers(cs, x)
  {
    forall i | 0 <= i < |cs| ensures x < cs[i].offset {
      if i > 0 { assert cs[0].End() <= cs[i].offset; }
    }
  }

  lemma SameMissing(cs: seq<Chunk>, from: nat, ds: seq<Chunk>, from': nat, end: nat)
    requires forall x: nat :: Missing(cs, from, end, x) <==> Missing(ds, from', end, x)
    ensures OneGap(cs, from, end) <==> OneGap(ds, from', end)
    ensures HoldsAll(cs, from, end) <==> HoldsAll(ds, from', end)
  {
    hide Missing;
  }

  /** What is kept of an arbitrary frame: all that is not yet there, if and only if no byte
      already buffered lies between two of its missing bytes. */
  lemma KeptWholeIff(cs: seq<Chunk>, consumed: nat, offset: nat, bytes: seq<byte>)
    requires Ordered(cs, consumed)
    ensures var start := SkipConsumed(consumed, offset, |bytes|);
            HoldsAll(Insert(cs, offset, bytes, start), offset + start, offset + |bytes|)
            <==> OneGap(cs, offset + start, offset + |bytes|)
  {
    StoredWholeIff(cs, offset, bytes, SkipConsumed(consumed, offset, |bytes|), consumed);
  }

  /** For instance, the third byte of a frame whose second byte is there already is lost. */
  lemma BytesBeyondAChunkAreDropped(a: byte, b: byte, c: byte)
    ensures var cs := Insert([Chunk(1, [b])], 0, [a, b, c], 0);
            cs == [Chunk(0, [a]), Chunk(1, [b])] && !Covers(cs, 2)
  {
    assert [a, b, c][0..1] == [a];
  }

  /** Places where the sender has cut the stream into frames. */
  ghost predicate AllCut(cs: seq<Chunk>, cuts: set<nat>) {
    forall i :: 0 <= i < |cs| ==> cs[i].offset in cuts && cs[i].End() in cuts
  }

  /** lo..hi is one piece between two cuts. */
  ghost predicate OnePiece(cuts: set<nat>, lo: nat, hi: nat) {
    lo in cuts && hi in cuts && forall c :: c in cuts ==> c <= lo || hi <= c
  }

  /** A frame that is one piece of the stream is stored whole unless it is there already,
      provided all chunks and the starting point are at cuts: afterwards every byte of it is
      covered, and the chunks still begin and end at cuts. */
  lemma {:induction false} InsertWhole(cs: seq<Chunk>, offset: nat, bytes: seq<byte>, start: nat,
                                       cuts: set<nat>, x: nat)
    requires AllCut(cs, cuts) && OnePiece(cuts, offset, offset + |bytes|)
    requires start <= |bytes| && offset + start in cuts
    ensures AllCut(Insert(cs, offset, bytes, start), cuts)
    ensures offset + start <= x < offset + |bytes| ==> Covers(Insert(cs, offset, bytes, start), x)
    decreases |cs|
  {
    hide Covers;
    if start < |bytes| {
      if cs != [] && cs[0].offset <= offset + start {
        var c := cs[0];
        assert c.End() in cuts;
        var s := SkipChunk(c, offset, |bytes|, start);
        InsertWhole(cs[1..], offset, bytes, s, cuts, x);
        CoversCons(c, Insert(cs[1..], offset, bytes, s), x);
      } else {
        assert cs != [] ==> cs[0].offset in cuts;
        CoversCons(Insert(cs, offset, bytes, start)[0], cs, x);
      }
    }
  }

  // -------------------------------------------------------------------------------- delivery

  /** One call of the application: some bytes, and whether the stream ends with them. */
  datatype Event = Event(data: seq<byte>, fin: bool)

  datatype Receiver = Receiver(chunks: seq<Chunk>, consumed: nat, finOffset: nat, maxData: nat,
                               finReceived: bool, finSignalled: bool, events: seq<Event>)

  /** The end of the stream has been reached and the application does not know yet. */
  predicate FinDue(r: Receiver) {
    r.consumed >= r.finOffset && r.finReceived && !r.finSignalled
  }

  /** One turn of the loop of picoquic_stream_data_callback. */
  function TakeFirst(r: Receiver): Receiver
    requires r.chunks != [] && r.chunks[0].offset <= r.consumed <= r.chunks[0].End()
  {
    var c := r.chunks[0];
    var data := c.bytes[r.consumed - c.offset..];
    var t := r.(chunks := r.chunks[1..], consumed := r.consumed + |data|);
    t.(finSignalled := r.finSignalled || FinDue(t), events := r.events + [Event(data, FinDue(t))])
  }

  function DeliverChunks(r: Receiver): Receiver
    requires Ordered(r.chunks, r.consumed)
    decreases |r.chunks|
  {
    if r.chunks == [] || r.chunks[0].offset > r.consumed then r
    else
      OrderedTail(r.chunks, r.consumed);
      DeliverChunks(TakeFirst(r))
  }

  lemma DeliverOne(r: Receiver)
    requires Ordered(r.chunks, r.consumed) && r.chunks != [] && r.chunks[0].offset <= r.consumed
    ensures r.consumed <= r.chunks[0].End()
    ensures Ordered(TakeFirst(r).chunks, TakeFirst(r).consumed)
    ensures DeliverChunks(r) == DeliverChunks(TakeFirst(r))
  {
    OrderedTail(r.chunks, r.consumed);
  }

  lemma DeliverNone(r: Receiver)
    requires Ordered(r.chunks, r.consumed) && (r.chunks != [] ==> r.chunks[0].offset > r.consumed)
    ensures DeliverChunks(r) == r
  {
  }

  /** picoquic_stream_data_callback. */
  function Deliver(r: Receiver): Receiver
    requires Ordered(r.chunks, r.consumed)
  {
    var t := DeliverChunks(r);
    if FinDue(t) then t.(finSignalled := true, events := t.events + [Event([], true)]) else t
  }

  function Delivered(events: seq<Event>): seq<byte> {
    if events == [] then []
    else Delivered(events[..|events| - 1]) + events[|events| - 1].data
  }

  lemma DeliveredSnoc(events: seq<Event>, e: Event)
    ensures Delivered(events + [e]) == Delivered(events) + e.data
  {
    assert (events + [e])[..|events|] == events;
  }

  /** The bytes handed over are those of the stream, from its beginning; what is buffered
      lies ahead and agrees with the stream. */
  ghost predicate Sound(r: Receiver, stream: seq<byte>) {
    && Ordered(r.chunks, r.consumed) && AllAgree(r.chunks, stream)
    && r.consumed <= |stream| && Delivered(r.events) == stream[..r.consumed]
  }

  lemma TakeFirstSound(r: Receiver, stream: seq<byte>)
    requires Sound(r, stream) && r.chunks != [] && r.chunks[0].offset <= r.consumed
    ensures r.consumed <= r.chunks[0].End() && Sound(TakeFirst(r), stream)
    ensures TakeFirst(r).consumed == r.chunks[0].End()
  {
    hide Ordered;
    OrderedTail(r.chunks, r.consumed);
    var c, t := r.chunks[0], TakeFirst(r);
    assert Agrees(c, stream) && c.bytes[0..] == c.bytes;
    DeliveredSnoc(r.events, t.events[|r.events|]);
    assert stream[..r.consumed] + stream[r.consumed..c.End()] == stream[..c.End()];
  }

  /** Nothing lies beyond the highest offset seen, and the end of the stream is announced
      once, by the last call, when everything before it has been handed over. */
  ghost predicate FinOk(r: Receiver) {
    && r.consumed <= r.finOffset && EndBy(r.chunks, r.finOffset)
    && (r.finSignalled ==> r.finReceived && r.consumed == r.finOffset && r.events != [])
    && forall i :: 0 <= i < |r.events| ==>
         (r.events[i].fin <==> r.finSignalled && i == |r.events| - 1)
  }

  lemma TakeFirstFin(r: Receiver)
    requires Ordered(r.chunks, r.consumed) && r.chunks != []
    requires r.chunks[0].offset <= r.consumed && FinOk(r)
    ensures r.consumed <= r.chunks[0].End() && FinOk(TakeFirst(r))
  {
    OrderedTail(r.chunks, r.consumed);
    assert !r.finSignalled;
  }

  /** The position of the application and all chunks are at cuts of the sender. */
  ghost predicate CutOk(r: Receiver, cuts: set<nat>) {
    r.consumed in cuts && AllCut(r.chunks, cuts)
  }

  /** Byte x has arrived. */
  ghost predicate Has(r: Receiver, x: nat) {
    x < r.consumed || Covers(r.chunks, x)
  }

  lemma TakeFirstHas(r: Receiver, x: nat)
    requires Ordered(r.chunks, r.consumed) && r.chunks != []
    requires r.chunks[0].offset <= r.consumed
    ensures r.consumed <= r.chunks[0].End() && (Has(TakeFirst(r), x) <==> Has(r, x))
  {
    hide Covers;
    OrderedTail(r.chunks, r.consumed);
    CoversCons(r.chunks[0], r.chunks[1..], x);
    assert r.chunks == [r.chunks[0]] + r.chunks[1..];
  }

  /** Everything that every step keeps. */
  ghost predicate Good(r: Receiver, stream: seq<byte>, cuts: set<nat>) {
    Sound(r, stream) && FinOk(r) && CutOk(r, cuts)
  }

  /** No chunk can be delivered, and no end of stream is due. */
  ghost predicate Settled(r: Receiver) {
    (r.chunks == [] || r.chunks[0].offset > r.consumed) && !FinDue(r)
  }

  lemma TakeFirstGood(r: Receiver, stream: seq<byte>, cuts: set<nat>)
    requires Good(r, stream, cuts) && r.chunks != [] && r.chunks[0].offset <= r.consumed
    ensures r.consumed <= r.chunks[0].End() && Good(TakeFirst(r), stream, cuts)
    ensures Ordered(r.chunks, r.consumed)
    ensures TakeFirst(r).chunks == r.chunks[1..] && TakeFirst(r).consumed == r.chunks[0].End()
  {
    TakeFirstSound(r, stream);
    hide Sound, Ordered;
    TakeFirstFin(r);
    hide FinOk;
  }

  /** The delivery loop keeps all this, and stops only when no chunk can be delivered. */
  lemma {:induction false} DeliverChunksGood(r: Receiver, stream: seq<byte>, cuts: set<nat>)
    requires Good(r, stream, cuts)
    ensures Ordered(r.chunks, r.consumed)
    ensures var t := DeliverChunks(r);
            && Good(t, stream, cuts) && (t.chunks == [] || t.chunks[0].offset > t.consumed)
            && r.consumed <= t.consumed && SameLimits(r, t)
    decreases |r.chunks|
  {
    if r.chunks != [] && r.chunks[0].offset <= r.consumed {
      TakeFirstGood(r, stream, cuts);
      hide Good;
      DeliverChunksGood(TakeFirst(r), stream, cuts);
    }
  }

  ghost predicate SameLimits(r: Receiver, t: Receiver) {
    t.finOffset == r.finOffset && t.maxData == r.maxData && t.finReceived == r.finReceived
  }

  lemma {:induction false} DeliverChunksHas(r: Receiver, x: nat)
    requires Ordered(r.chunks, r.consumed)
    ensures Has(DeliverChunks(r), x) <==> Has(r, x)
    decreases |r.chunks|
  {
    hide Has;
    if r.chunks != [] && r.chunks[0].offset <= r.consumed {
      TakeFirstHas(r, x);
      OrderedTail(r.chunks, r.consumed);
      DeliverChunksHas(TakeFirst(r), x);
    }
  }

  /** Delivery keeps the invariant, loses no byte, and leaves nothing that could be
      delivered or announced. */
  lemma DeliverGood(r: Receiver, stream: seq<byte>, cuts: set<nat>)
    requires Good(r, stream, cuts)
    ensures Ordered(r.chunks, r.consumed)
    ensures var t := Deliver(r);
            && Good(t, stream, cuts) && Settled(t) && r.consumed <= t.consumed && SameLimits(r, t)
  {
    hide DeliverChunks;
    DeliverChunksGood(r, stream, cuts);
    var t := DeliverChunks(r);
    if FinDue(t) {
      DeliveredSnoc(t.events, Event([], true));
      assert Delivered(t.events) + [] == Delivered(t.events);
    }
  }

  lemma DeliverHas(r: Receiver, x: nat)
    requires Ordered(r.chunks, r.consumed)
    ensures Has(Deliver(r), x) <==> Has(r, x)
  {
    DeliverChunksHas(r, x);
  }

  /** Calls of the application are never taken back. */
  lemma {:induction false} DeliverChunksCalls(r: Receiver)
    requires Ordered(r.chunks, r.consumed)
    ensures r.events <= DeliverChunks(r).events
    decreases |r.chunks|
  {
    hide Ordered, DeliverChunks;
    if r.chunks != [] && r.chunks[0].offset <= r.consumed {
      DeliverOne(r);
      DeliverChunksCalls(TakeFirst(r));
    } else {
      DeliverNone(r);
    }
  }

  // ----------------------------------------------------------------------- a frame arrives

  const FINAL_OFFSET_ERROR := 0x6

  datatype Outcome = Outcome(ret: int, receiver: Receiver, cnx: Connection)

  /** Buffers the data and calls the application when there is something new for it. */
  function Accept(r: Receiver, offset: nat, bytes: seq<byte>, notify: bool): Receiver
    requires Ordered(r.chunks, r.consumed)
  {
    var start := SkipConsumed(r.consumed, offset, |bytes|);
    var t := r.(chunks := Insert(r.chunks, offset, bytes, start));
    InsertOrdered(r.chunks, offset, bytes, start, r.consumed);
    if notify || |t.chunks| > |r.chunks| then Deliver(t) else t
  }

  /** picoquic_stream_network_input on an open stream. */
  function Input(r: Receiver, cnx: Connection, offset: nat, bytes: seq<byte>, fin: bool): Outcome
    requires Ordered(r.chunks, r.consumed)
  {
    var end := offset + |bytes|;
    if r.finReceived then
      if (if fin then r.finOffset != end else end > r.finOffset)
      then Outcome(FINAL_OFFSET_ERROR, r, cnx)
      else Outcome(0, Accept(r, offset, bytes, false), cnx)
    else
      var t := r.(finReceived := fin);
      if end > r.finOffset then
        match Admit(cnx, Stream(r.maxData, r.finOffset), end)
        case None => Outcome(FLOW_CONTROL_ERROR, t, cnx)
        case Some(a) =>
          Outcome(0, Accept(t.(finOffset := a.stream.finOffset), offset, bytes, fin), a.cnx)
      else Outcome(0, Accept(t, offset, bytes, fin), cnx)
  }

  lemma AcceptCalls(r: Receiver, offset: nat, bytes: seq<byte>, notify: bool)
    requires Ordered(r.chunks, r.consumed)
    ensures r.events <= Accept(r, offset, bytes, notify).events
  {
    hide Ordered, Insert;
    var start := SkipConsumed(r.consumed, offset, |bytes|);
    InsertOrdered(r.chunks, offset, bytes, start, r.consumed);
    DeliverChunksCalls(r.(chunks := Insert(r.chunks, offset, bytes, start)));
  }

  lemma InputCalls(r: Receiver, cnx: Connection, offset: nat, bytes: seq<byte>, fin: bool)
    requires Ordered(r.chunks, r.consumed)
    ensures r.events <= Input(r, cnx, offset, bytes, fin).receiver.events
  {
    hide Ordered, Accept;
    AcceptCalls(r, offset, bytes, false);
    AcceptCalls(r.(finReceived := fin), offset, bytes, fin);
    AcceptCalls(r.(finReceived := fin, finOffset := offset + |bytes|), offset, bytes, fin);
  }

  lemma {:induction false} DeliverChunksLimits(r: Receiver)
    requires Ordered(r.chunks, r.consumed)
    ensures SameLimits(r, DeliverChunks(r))
    decreases |r.chunks|
  {
    hide Ordered, DeliverChunks;
    if r.chunks != [] && r.chunks[0].offset <= r.consumed {
      DeliverOne(r);
      DeliverChunksLimits(TakeFirst(r));
    } else {
      DeliverNone(r);
    }
  }

  lemma AcceptLimits(r: Receiver, offset: nat, bytes: seq<byte>, notify: bool)
    requires Ordered(r.chunks, r.consumed)
    ensures SameLimits(r, Accept(r, offset, bytes, notify))
  {
    hide Ordered, Insert;
    var start := SkipConsumed(r.consumed, offset, |bytes|);
    InsertOrdered(r.chunks, offset, bytes, start, r.consumed);
    DeliverChunksLimits(r.(chunks := Insert(r.chunks, offset, bytes, start)));
  }

  /** An accepted frame that ends the stream leaves the end where it says exactly when nothing
      beyond was seen before: an end below data that has arrived is not refused, and is taken to
      be the end of that data. */
  lemma EndTakenIff(r: Receiver, cnx: Connection, offset: nat, bytes: seq<byte>)
    requires Ordered(r.chunks, r.consumed) && Input(r, cnx, offset, bytes, true).ret == 0
    ensures var t, end := Input(r, cnx, offset, bytes, true).receiver, offset + |bytes|;
            && t.finReceived && t.finOffset == (if r.finOffset < end then end else r.finOffset)
            && (t.finOffset == end <==> r.finOffset <= end)
  {
    hide Ordered, Accept;
    AcceptLimits(r, offset, bytes, false);
    AcceptLimits(r.(finReceived := true), offset, bytes, true);
    AcceptLimits(r.(finReceived := true, finOffset := offset + |bytes|), offset, bytes, true);
  }

  /** What a frame, refused or not, uses up of the connection's limit is what it adds to the highest
      offset of its stream; the limits themselves stay. */
  lemma InputCounts(r: Receiver, cnx: Connection, offset: nat, bytes: seq<byte>, fin: bool)
    requires Ordered(r.chunks, r.consumed)
    ensures var o := Input(r, cnx, offset, bytes, fin);
            && o.cnx.received - cnx.received == o.receiver.finOffset - r.finOffset
            && o.cnx.maxData == cnx.maxData && o.receiver.maxData == r.maxData
  {
    hide Ordered, Accept;
    AcceptLimits(r, offset, bytes, false);
    AcceptLimits(r.(finReceived := fin), offset, bytes, fin);
    AcceptLimits(r.(finReceived := fin, finOffset := offset + |bytes|), offset, bytes, fin);
  }

  /** For instance: the second byte arrives, and then the first with the end of the stream. Both
      are handed over, and the end is announced after the second. */
  lemma EndBelowDataIsMoved(a: byte, b: byte, maxData: nat, cnx: Connection)
    requires maxData >= 2 && cnx.maxData >= cnx.received + 2
    ensures var r := Receiver([], 0, 0, maxData, false, false, []);
            var first := Input(r, cnx, 1, [b], false);
            && first.ret == 0 && first.receiver == r.(chunks := [Chunk(1, [b])], finOffset := 2)
            && var second := Input(first.receiver, first.cnx, 0, [a], true);
               && second.ret == 0 && second.receiver.finOffset == 2
               && second.receiver.events == [Event([a], false), Event([b], true)]
  {
    var r := Receiver([], 0, 0, maxData, false, false, []);
    assert [a][0..1] == [a] && [b][0..1] == [b] && [a][0..] == [a] && [b][0..] == [b];
    var one := r.(chunks := [Chunk(1, [b])], finOffset := 2);
    assert Accept(r.(finOffset := 2), 1, [b], false) == one;
    assert Insert(one.chunks, 0, [a], 0) == [Chunk(0, [a]), Chunk(1, [b])];
    var two := one.(chunks := [Chunk(0, [a]), Chunk(1, [b])], finReceived := true);
    var three := two.(chunks := [Chunk(1, [b])], consumed := 1, events := [Event([a], false)]);
    assert TakeFirst(two) == three;
    DeliverOne(two);
    DeliverOne(three);
    DeliverNone(TakeFirst(three));
  }

  /** A piece of the stream that agrees with it is accepted into a good state: the state
      stays good and settled, and from now on holds every byte of the piece. */
  lemma AcceptGood(r: Receiver, offset: nat, bytes: seq<byte>, notify: bool,
                   stream: seq<byte>, cuts: set<nat>)
    requires Good(r, stream, cuts) && (notify || Settled(r))
    requires Agrees(Chunk(offset, bytes), stream) && OnePiece(cuts, offset, offset + |bytes|)
    requires offset + |bytes| <= r.finOffset
    ensures Ordered(r.chunks, r.consumed)
    ensures var t := Accept(r, offset, bytes, notify);
            Good(t, stream, cuts) && Settled(t) && r.consumed <= t.consumed && SameLimits(r, t)
  {
    hide Deliver, Covers, Settled;
    var start := SkipConsumed(r.consumed, offset, |bytes|);
    var t := r.(chunks := Insert(r.chunks, offset, bytes, start));
    InsertOrdered(r.chunks, offset, bytes, start, r.consumed);
    InsertAgrees(r.chunks, offset, bytes, start, stream);
    InsertWhole(r.chunks, offset, bytes, start, cuts, 0);
    InsertEnds(r.chunks, offset, bytes, start, r.finOffset);
    assert Good(t, stream, cuts);
    hide Good;
    if notify || |t.chunks| > |r.chunks| {
      DeliverGood(t, stream, cuts);
    } else {
      InsertNothing(r.chunks, offset, bytes, start);
    }
  }

  ghost predicate EndBy(cs: seq<Chunk>, limit: nat) {
    forall i :: 0 <= i < |cs| ==> cs[i].End() <= limit
  }

  lemma {:induction false} InsertEnds(cs: seq<Chunk>, offset: nat, bytes: seq<byte>, start: nat,
                                      limit: nat)
    requires EndBy(cs, limit) && offset + |bytes| <= limit
    ensures EndBy(Insert(cs, offset, bytes, start), limit)
    decreases |cs|
  {
    if start < |bytes| && cs != [] && cs[0].offset <= offset + start {
      InsertEnds(cs[1..], offset, bytes, SkipChunk(cs[0], offset, |bytes|, start), limit);
    }
  }

  lemma {:induction false} InsertNothing(cs: seq<Chunk>, offset: nat, bytes: seq<byte>, start: nat)
    requires |Insert(cs, offset, bytes, start)| <= |cs|
    ensures Insert(cs, offset, bytes, start) == cs
    decreases |cs|
  {
    if start < |bytes| && cs != [] && cs[0].offset <= offset + start {
      InsertNothing(cs[1..], offset, bytes, SkipChunk(cs[0], offset, |bytes|, start));
    }
  }

  lemma AcceptHas(r: Receiver, offset: nat, bytes: seq<byte>, notify: bool, cuts: set<nat>, x: nat)
    requires Ordered(r.chunks, r.consumed) && CutOk(r, cuts)
    requires OnePiece(cuts, offset, offset + |bytes|)
    ensures Has(r, x) || offset <= x < offset + |bytes| ==> Has(Accept(r, offset, bytes, notify), x)
  {
    hide Deliver, Covers;
    var start := SkipConsumed(r.consumed, offset, |bytes|);
    var t := r.(chunks := Insert(r.chunks, offset, bytes, start));
    InsertOrdered(r.chunks, offset, bytes, start, r.consumed);
    InsertCovers(r.chunks, offset, bytes, start, x);
    InsertWhole(r.chunks, offset, bytes, start, cuts, x);
    DeliverHas(t, x);
  }

  // ---------------------------------------------------------------- the loops of frames.c

  /** One turn of the search for the place of a frame. */
  lemma InsertSkip(cs: seq<Chunk>, i: nat, offset: nat, bytes: seq<byte>, start: nat)
    requires i < |cs| && start < |bytes| && cs[i].offset <= offset + start
    ensures cs[..i] + Insert(cs[i..], offset, bytes, start)
         == cs[..i + 1] + Insert(cs[i + 1..], offset, bytes,
                                 SkipChunk(cs[i], offset, |bytes|, start))
  {
    assert cs[i..][1..] == cs[i + 1..];
  }

  /** The search ends: what is missing goes before chunk i. */
  lemma InsertStop(cs: seq<Chunk>, i: nat, offset: nat, bytes: seq<byte>, start: nat)
    requires i <= |cs| && (i < |cs| && start < |bytes| ==> cs[i].offset > offset + start)
    ensures cs[..i] + Insert(cs[i..], offset, bytes, start) ==
      if start >= |bytes| then cs
      else
        var end := if i < |cs| && cs[i].offset < offset + |bytes| then cs[i].offset - offset
                   else |bytes|;
        cs[..i] + [Chunk(offset + start, bytes[start..end])] + cs[i..]
  {
    assert cs[..i] + cs[i..] == cs;
  }

  class StreamHead {
    var chunks: seq<Chunk>
    var consumedOffset: nat
    var finOffset: nat
    var maxdataLocal: nat
    var finReceived: bool
    var finSignalled: bool
    var calls: seq<Event>         // what the application has been called with
    var cnxMaxdataLocal: nat      // the connection's limit and
    var cnxDataReceived: nat      // what all its streams have used of it

    ghost function Abstract(): Receiver
      reads this
    {
      Receiver(chunks, consumedOffset, finOffset, maxdataLocal, finReceived, finSignalled, calls)
    }

    ghost function Cnx(): Connection
      reads this
    {
      Connection(cnxMaxdataLocal, cnxDataReceived)
    }

    /** picoquic_queue_network_input. */
    method QueueInput(offset: nat, bytes: seq<byte>) returns (isNew: bool)
      requires Ordered(chunks, consumedOffset)
      modifies this`chunks
      ensures chunks == Insert(old(chunks), offset, bytes,
                               SkipConsumed(consumedOffset, offset, |bytes|))
      ensures isNew == (|chunks| > |old(chunks)|)
    {
      hide Insert, Ordered;
      var start: nat, i := 0, 0;
      if offset <= consumedOffset {
        if offset + |bytes| <= consumedOffset {
          start := |bytes|;
        } else {
          start := consumedOffset - offset;
        }
      }
      ghost var result := Insert(chunks, offset, bytes, start);
      assert chunks[0..] == chunks && [] + result == result;
      while i < |chunks| && start < |bytes| && chunks[i].offset <= offset + start
        invariant i <= |chunks| && chunks == old(chunks)
        invariant chunks[..i] + Insert(chunks[i..], offset, bytes, start) == result
      {
        var next := chunks[i];
        InsertSkip(chunks, i, offset, bytes, start);
        if offset + |bytes| <= next.offset + |next.bytes| {
          start := |bytes|;
        } else if offset < next.offset + |next.bytes| {
          start := next.offset + |next.bytes| - offset;
        }
        i := i + 1;
      }
      InsertStop(chunks, i, offset, bytes, start);
      isNew := start < |bytes|;
      if isNew { Store(i, offset, bytes, start); }
    }

    /** Stores the missing bytes before chunk i. */
    method Store(i: nat, offset: nat, bytes: seq<byte>, start: nat)
      requires start < |bytes| && i <= |chunks|
      requires i < |chunks| ==> chunks[i].offset > offset + start
      modifies this`chunks
      ensures |chunks| == |old(chunks)| + 1
      ensures chunks == old(chunks)[..i] + Insert(old(chunks)[i..], offset, bytes, start)
    {
      InsertStop(chunks, i, offset, bytes, start);
      var length := |bytes| - start;
      if i < |chunks| && chunks[i].offset < offset + |bytes| {
        length := length - (offset + |bytes| - chunks[i].offset);
      }
      if length > 0 {
        var data := Chunk(offset + start, bytes[start..start + length]);
        chunks := chunks[..i] + [data] + chunks[i..];
      }
    }

    /** One turn of the loop of picoquic_stream_data_callback. */
    method CallFirst()
      requires chunks != [] && chunks[0].offset <= consumedOffset <= chunks[0].End()
      modifies this`chunks, this`consumedOffset, this`finSignalled, this`calls
      ensures Abstract() == TakeFirst(old(Abstract()))
    {
      var data := chunks[0];
      var start := consumedOffset - data.offset;
      var length := |data.bytes| - start;
      var finNow := false;
      consumedOffset := consumedOffset + length;
      if consumedOffset >= finOffset && finReceived && !finSignalled {
        finNow := true;
        finSignalled := true;
      }
      calls := calls + [Event(data.bytes[start..], finNow)];
      chunks := chunks[1..];
    }

    /** picoquic_stream_data_callback. */
    method DataCallback()
      requires Ordered(chunks, consumedOffset)
      modifies this`chunks, this`consumedOffset, this`finSignalled, this`calls
      ensures Abstract() == Deliver(old(Abstract()))
    {
      hide Ordered, DeliverChunks;
      while chunks != [] && chunks[0].offset <= consumedOffset
        invariant Ordered(chunks, consumedOffset)
        invariant DeliverChunks(Abstract()) == DeliverChunks(old(Abstract()))
        decreases |chunks|
      {
        DeliverOne(Abstract());
        CallFirst();
      }
      DeliverNone(Abstract());
      if consumedOffset >= finOffset && finReceived && !finSignalled {
        finSignalled := true;
        calls := calls + [Event([], true)];
      }
    }

    /** picoquic_stream_network_input on an open stream. */
    method NetworkInput(offset: nat, fin: bool, bytes: seq<byte>) returns (ret: int)
      requires Ordered(chunks, consumedOffset)
      modifies this
      ensures Outcome(ret, Abstract(), Cnx())
           == Input(old(Abstract()), old(Cnx()), offset, bytes, fin)
    {
      hide Insert, Deliver, Ordered;
      ret := 0;
      var notify := false;
      var end := offset + |bytes|;
      if finReceived {
        if (if fin then finOffset != end else end > finOffset) {
          ret := FINAL_OFFSET_ERROR;
        }
      } else {
        if fin {
          finReceived, notify := true, true;
        }
        if end > finOffset {
          ret := CheckOffset(end);
        }
      }
      if ret == 0 {
        InsertOrdered(chunks, offset, bytes, SkipConsumed(consumedOffset, offset, |bytes|),
                      consumedOffset);
        var isNew := QueueInput(offset, bytes);
        if isNew { notify := true; }
        if notify { DataCallback(); }
      }
    }

    /** picoquic_flow_control_check_stream_offset. */
    method CheckOffset(newOffset: nat) returns (ret: int)
      modifies this`finOffset, this`cnxDataReceived
      ensures ret == if Admit(old(Cnx()), Stream(maxdataLocal, old(finOffset)), newOffset).Some?
                     then 0 else FLOW_CONTROL_ERROR
      ensures ret == 0 ==>
        Admit(old(Cnx()), Stream(maxdataLocal, old(finOffset)), newOffset)
        == Some(Admitted(Cnx(), Stream(maxdataLocal, finOffset)))
      ensures ret != 0 ==> finOffset == old(finOffset) && Cnx() == old(Cnx())
    {
      ret := 0;
      if newOffset > maxdataLocal {
        ret := FLOW_CONTROL_ERROR;
      } else if newOffset > finOffset {
        var more := newOffset - finOffset;
        if more > cnxMaxdataLocal || cnxMaxdataLocal - more < cnxDataReceived {
          ret := FLOW_CONTROL_ERROR;
        } else {
          cnxDataReceived := cnxDataReceived + more;
          finOffset := newOffset;
        }
      }
    }
  }
}
