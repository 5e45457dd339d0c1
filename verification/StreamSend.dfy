/** The sending side of a stream: queueing application data (picoquic/sender.c) and cutting
    it into STREAM frames (picoquic/frames.c). */
module StreamSend {

  import opened Varint
  import opened StreamFrame

  // ------------------------------------------------------------------------ abstract sender

  /** `pending` is what the application has queued beyond `sent`. */
  datatype State = State(id: nat, sent: nat, pending: seq<byte>, maxData: nat,
                         finNotified: bool, finSent: bool)

  /** What may be emitted, and what is left: a frame carries the next pending bytes, within
      the peer's limit, and ends the stream exactly when nothing is left after the
      application has said so. */
  ghost predicate Emits(s: State, s': State, f: Frame) {
    && (s.pending != [] || (s.finNotified && !s.finSent))
    && f.id == s.id && f.offset == s.sent
    && f.data <= s.pending && f.End() <= s.maxData
    && f.fin == (s.finNotified && |f.data| == |s.pending|)
    && (f.data != [] || f.fin)
    && s' == s.(sent := f.End(), pending := s.pending[|f.data|..], finSent := s.finSent || f.fin)
  }

  /** picoquic_add_to_stream: only a second end of stream with data is refused. */
  function Added(s: State, data: seq<byte>, setFin: bool): State {
    if setFin && s.finNotified then s
    else s.(finNotified := s.finNotified || setFin, pending := s.pending + data)
  }

  // --------------------------------------------------------------------------- the real one

  /** A queued buffer and how much of it has been sent. */
  datatype Node = Node(bytes: seq<byte>, offset: nat)

  function Left(n: Node): seq<byte>
    requires n.offset <= |n.bytes|
  {
    n.bytes[n.offset..]
  }

  ghost predicate AllLeft(q: seq<Node>) {
    forall i :: 0 <= i < |q| ==> q[i].offset < |q[i].bytes|
  }

  function Pending(q: seq<Node>): seq<byte>
    requires AllLeft(q)
  {
    if q == [] then [] else Left(q[0]) + Pending(q[1..])
  }

  lemma {:induction false} PendingSnoc(q: seq<Node>, n: Node)
    requires AllLeft(q) && n.offset < |n.bytes|
    ensures AllLeft(q + [n]) && Pending(q + [n]) == Pending(q) + Left(n)
    decreases |q|
  {
    if q == [] {
      assert q + [n] == [n];
    } else {
      PendingSnoc(q[1..], n);
      assert (q + [n])[1..] == q[1..] + [n];
    }
  }

  /** A longer number never has a shorter encoding. */
  lemma EncodeMonotone(a: nat, b: nat)
    requires a <= b < VARINT_LIMIT
    ensures |Encode(a)| <= |Encode(b)|
  {
  }

  /** What is left of the connection's limit, as a difference of 64-bit words: stream 0 is not
      bound by the limit, so what has been sent may exceed it. */
  function Room(limit: nat, sent: nat): int {
    if sent <= limit then limit - sent else limit + U64 - sent
  }

  function Min(a: int, b: int): int { if a < b then a else b }

  /** With a length field for `want` bytes there is room for some data, or for none if none is
      wanted. */
  ghost predicate LengthFits(space: nat, want: nat)
    requires want < VARINT_LIMIT
  {
    |Encode(want)| < space
  }

  /** The data that goes with a length field: all of it, or what its length leaves room for. */
  ghost function Carried(space: nat, want: nat): nat
    requires want < VARINT_LIMIT && LengthFits(space, want)
  {
    if |Encode(want)| + want <= space then want else space - |Encode(want)|
  }

  /** Data that fills the buffer needs no length field. */
  predicate Fills(space: nat, want: nat, alwaysLength: bool) {
    space >= 2 && !alwaysLength && want >= space
  }

  class Sender {
    const id: nat
    var sentOffset: nat
    var queue: seq<Node>
    var maxdataRemote: nat
    var finNotified: bool
    var finSent: bool
    var cnxMaxdataRemote: nat  // the connection's limit and
    var cnxDataSent: nat       // what all its streams have sent

    ghost predicate Valid()
      reads this
    {
      && AllLeft(queue) && id < VARINT_LIMIT && sentOffset + |Pending(queue)| < VARINT_LIMIT
      && sentOffset <= maxdataRemote && cnxMaxdataRemote < U64 && cnxDataSent < U64
    }

    ghost function Abstract(): State
      requires AllLeft(queue)
      reads this
    {
      State(id, sentOffset, Pending(queue), maxdataRemote, finNotified, finSent)
    }

    /** The number of bytes to send if the buffer were large enough. */
    ghost function Want(): nat
      requires Valid()
      reads this
    {
      var queued := if queue == [] then 0 else |Left(queue[0])|;
      var within := Min(queued, maxdataRemote - sentOffset);
      if id == 0 then within else Min(within, Room(cnxMaxdataRemote, cnxDataSent))
    }

    ghost function HeaderSize(): nat
      requires Valid()
      reads this
    {
      1 + |StartBytes(id, sentOffset)|
    }

    /** The connection has counted so many more bytes as sent, on 64 bits, under the same limit. */
    ghost predicate Counted(sent: nat, limit: nat, length: nat)
      reads this
    {
      cnxDataSent == (sent + length) % U64 && cnxMaxdataRemote == limit
    }

    /** There is data to send, or the end of the stream. */
    ghost predicate HasWork()
      reads this
    {
      queue != [] || (finNotified && !finSent)
    }

    /** A frame can be made: the end of the stream alone needs the header only; data needs room
        under both limits and, with its length if that is written, in the buffer. */
    ghost predicate CanMake(max: nat, alwaysLength: bool)
      requires Valid()
      reads this
    {
      && HasWork() && HeaderSize() <= max
      && (queue == [] ||
          var space := max - HeaderSize();
          Want() > 0 && space >= 2 && (Fills(space, Want(), alwaysLength) || LengthFits(space, Want())))
    }

    /** The data in that frame. */
    ghost function DataSize(max: nat, alwaysLength: bool): nat
      requires Valid() && CanMake(max, alwaysLength)
      reads this
    {
      var space := max - HeaderSize();
      if queue == [] then 0 else if Fills(space, Want(), alwaysLength) then space
      else Carried(space, Want())
    }

    lemma WantBound()
      requires Valid()
      ensures Want() < VARINT_LIMIT && sentOffset + Want() <= maxdataRemote
      ensures Want() <= if queue == [] then 0 else |Left(queue[0])|
    {
      PendingHead(queue);
    }

    /** picoquic_add_to_stream on a stream that is not being reset. */
    method AddToStream(data: seq<byte>, setFin: bool) returns (ret: int)
      requires Valid() && sentOffset + |Pending(queue)| + |data| < VARINT_LIMIT
      modifies this
      ensures Valid()
      ensures ret == if setFin && old(finNotified) && data != [] then -1 else 0
      ensures Abstract() == Added(old(Abstract()), if ret == 0 then data else [], setFin)
    {
      ret := 0;
      if setFin {
        if finNotified {
          if |data| > 0 { ret := -1; }
        } else {
          finNotified := true;
        }
      }
      if ret == 0 && |data| > 0 {
        PendingSnoc(queue, Node(data, 0));
        queue := queue + [Node(data, 0)];
      }
      assert Pending(queue) == old(Pending(queue)) + if ret == 0 then data else [];
    }

    /** The type byte, the stream and, unless it is zero, the offset. */
    method BeginFrame(buf: array<byte>, max: nat) returns (ok: bool, at: nat)
      requires id < VARINT_LIMIT && sentOffset < VARINT_LIMIT && 1 <= max <= buf.Length
      modifies buf
      ensures ok <==> 1 + |StartBytes(id, sentOffset)| <= max
      ensures ok ==>
        && 1 <= at <= max && at == 1 + |StartBytes(id, sentOffset)|
        && buf[0] == TypeByte(sentOffset > 0, false, false)
        && buf[1..at] == StartBytes(id, sentOffset)
    {
      StartIs(id, sentOffset);
      TypeBits(sentOffset > 0);
      hide Encode, StartBytes, TypeByte;
      var lOff := 0;
      var lStream := PutStream(buf, max, id);
      at := 1 + lStream;
      if sentOffset > 0 && max > at {
        lOff := PutOffset(buf, at, max, sentOffset);
        at := at + lOff;
      }
      ok := !(lStream == 0 || (sentOffset > 0 && lOff == 0));
    }

    method Wanted() returns (length: nat)
      requires Valid()
      ensures length == Want()
    {
      length := if queue != [] then |queue[0].bytes| - queue[0].offset else 0;
      if length > maxdataRemote - sentOffset {
        length := maxdataRemote - sentOffset;
      }
      if id != 0 {
        var room := Room(cnxMaxdataRemote, cnxDataSent);
        if length > room { length := room; }
      }
    }

    /** The length of the data, and the length field unless the data fills the buffer. */
    method ChooseLength(buf: array<byte>, from: nat, max: nat, alwaysLength: bool)
      returns (ok: bool, at: nat, length: nat, hasLength: bool)
      requires Valid() && 1 <= from <= max <= buf.Length && max < VARINT_LIMIT
      requires buf[0] == 0x10 || buf[0] == 0x14
      requires queue != [] || (finNotified && !finSent)
      modifies buf
      ensures var space, want := max - from, Want();
              && want < VARINT_LIMIT
              && (ok <==> space < 2 || Fills(space, want, alwaysLength) || LengthFits(space, want))
              && (ok ==>
                    && hasLength == (space >= 2 && !Fills(space, want, alwaysLength))
                    && length == if space < 2 then 0 else if hasLength then Carried(space, want) else space)
      ensures ok ==>
        && from <= at && at + length <= max && buf[0] == old(buf[0]) + (if hasLength then 2 else 0)
        && length <= Want()
        && buf[1..at] == old(buf[1..from]) + (if hasLength then Encode(length) else [])
        && (!hasLength ==> at == from && max - (at + length) < 2)
    {
      hide Encode, Pending;
      WantBound();
      ok, at, length, hasLength := true, from, 0, false;
      var space := max - at;
      if space >= 2 {
        var wanted := Wanted();
        if !alwaysLength && wanted >= space {
          length := space;
        } else {
          ghost var before := buf[..from];
          buf[0] := buf[0] + 2;
          assert buf[..from] == [before[0] + 2] + before[1..];
          var l;
          l, length := PutLength(buf, at, max, wanted);
          if l == 0 { return false, at, 0, true; }
          at, hasLength := at + l, true;
          assert buf[..at] == [before[0] + 2] + before[1..] + Encode(length);
          assert buf[1..at] == buf[..at][1..];
        }
      }
    }

    /** The first `length` bytes leave the queue, and their buffer with them once used up. */
    method TakeData(length: nat) returns (data: seq<byte>)
      requires Valid() && sentOffset + length <= maxdataRemote
      requires queue != [] && 0 < length <= |Left(queue[0])|
      modifies this
      ensures Valid() && |data| == length && data <= old(Pending(queue))
      ensures Abstract() == old(Abstract()).(sent := old(sentOffset) + length,
                                             pending := old(Pending(queue))[length..])
      ensures Counted(old(cnxDataSent), old(cnxMaxdataRemote), length)
    {
      ghost var was := Pending(queue);
      var n := queue[0];
      assert was == Left(n) + Pending(queue[1..]);
      data := n.bytes[n.offset..n.offset + length];
      if n.offset + length >= |n.bytes| {
        queue := queue[1..];
      } else {
        var m := Node(n.bytes, n.offset + length);
        assert Left(m) == Left(n)[length..];
        assert queue[0 := m][1..] == queue[1..];
        queue := queue[0 := m];
      }
      assert Pending(queue) == was[length..];
      sentOffset := sentOffset + length;
      cnxDataSent := (cnxDataSent + length) % U64;
    }

    /** The data and, once the last queued byte is in, the end of the stream. */
    method FinishFrame(buf: array<byte>, at: nat, length: nat)
      returns (ghost data: seq<byte>, ghost fin: bool)
      requires Valid() && 1 <= at && at + length <= buf.Length && buf[0] < 0x20
      requires sentOffset + length <= maxdataRemote
      requires length <= (if queue == [] then 0 else |Left(queue[0])|)
      modifies this, buf
      ensures Valid() && |data| == length && data <= old(Pending(queue))
      ensures fin == (finNotified && |data| == |old(Pending(queue))|)
      ensures Abstract() == old(Abstract()).(sent := old(sentOffset) + length,
                                             pending := old(Pending(queue))[length..],
                                             finSent := old(finSent) || fin)
      ensures Counted(old(cnxDataSent), old(cnxMaxdataRemote), length)
      ensures buf[..at + length]
           == [old(buf[0]) + (if fin then 1 else 0)] + old(buf[1..at]) + data
    {
      hide Pending;
      var bytes: seq<byte> := [];
      if length > 0 {
        bytes := TakeData(length);
      }
      data := bytes;
      PendingHead(queue);
      var last := finNotified && queue == [];
      fin := last;
      WriteData(buf, at, bytes, last);
      if last {
        finSent := true;
      }
    }

    /** The length field, and whether there is anything to send after it. */
    method PlanFrame(buf: array<byte>, from: nat, max: nat, alwaysLength: bool)
      returns (ok: bool, at: nat, length: nat, hasLength: bool)
      requires Valid() && HasWork() && from == HeaderSize() <= max <= buf.Length && max < VARINT_LIMIT
      requires buf[0] == 0x10 || buf[0] == 0x14
      modifies buf
      ensures ok <==> CanMake(max, alwaysLength)
      ensures ok ==>
        && length == DataSize(max, alwaysLength)
        && hasLength == (max - from >= 2 && !Fills(max - from, Want(), alwaysLength))
        && from <= at && at + length <= max && sentOffset + length <= maxdataRemote
        && length <= (if queue == [] then 0 else |Left(queue[0])|)
        && (length > 0 || (finNotified && queue == []))
        && buf[0] == old(buf[0]) + (if hasLength then 2 else 0)
        && buf[1..at] == old(buf[1..from]) + (if hasLength then Encode(length) else [])
        && (!hasLength ==> at == from && max - (at + length) < 2)
    {
      hide Encode, Pending, StartBytes, Fills, Carried, LengthFits;
      WantBound();
      SomeData(max - from, Want(), alwaysLength);
      ok, at, length, hasLength := ChooseLength(buf, from, max, alwaysLength);
      if ok && length == 0 && !(finNotified && queue == []) {
        ok := false;
      }
    }

    /** prepare_stream_frame once the header is written. */
    method FillFrame(buf: array<byte>, from: nat, max: nat, alwaysLength: bool)
      returns (ret: int, consumed: nat, ghost f: Frame, ghost hasLength: bool)
      requires Valid() && HasWork() && from == HeaderSize() <= max <= buf.Length && max < VARINT_LIMIT
      requires buf[0] == TypeByte(sentOffset > 0, false, false)
      requires buf[1..from] == StartBytes(id, sentOffset)
      modifies this, buf
      ensures Valid()
      ensures consumed == 0 ==> ret == FRAME_BUFFER_TOO_SMALL && Abstract() == old(Abstract())
      ensures consumed > 0 ==>
        && ret == 0 && consumed <= max
        && Encodable(f) && buf[..consumed] == FrameBytes(f, hasLength)
        && Emits(old(Abstract()), Abstract(), f)
        && (!hasLength ==> max - consumed < 2)
      ensures consumed > 0 <==> old(CanMake(max, alwaysLength))
      ensures consumed > 0 ==>
        && |f.data| == old(DataSize(max, alwaysLength))
        && hasLength == old(max - HeaderSize() >= 2 && !Fills(max - HeaderSize(), Want(), alwaysLength))
      ensures Counted(old(cnxDataSent), old(cnxMaxdataRemote), if consumed > 0 then |f.data| else 0)
    {
      hide Encode, Pending, FrameBytes, TypeByte, StartBytes, Fills, CanMake, DataSize, Want, Left;
      PendingHead(queue);
      TypeBits(sentOffset > 0);
      ret, consumed, f, hasLength := FRAME_BUFFER_TOO_SMALL, 0, Frame(0, 0, [], false), false;
      var ok, at, length, withLength := PlanFrame(buf, from, max, alwaysLength);
      if !ok { return; }
      ghost var offset := sentOffset;
      ghost var data, fin := FinishFrame(buf, at, length);
      ret, consumed := 0, at + length;
      f, hasLength := Frame(id, offset, data, fin), withLength;
      FieldsOf(f, hasLength);
    }

    /** prepare_stream_frame on a stream that is neither reset nor asked to stop. */
    method Prepare(buf: array<byte>, max: nat, alwaysLength: bool)
      returns (ret: int, consumed: nat, ghost f: Frame, ghost hasLength: bool)
      requires Valid() && 1 <= max <= buf.Length && max < VARINT_LIMIT
      modifies this, buf
      ensures Valid() && (ret == 0 || ret == FRAME_BUFFER_TOO_SMALL)
      ensures consumed == 0 ==> Abstract() == old(Abstract())
      ensures consumed > 0 ==>
        && ret == 0 && consumed <= max
        && Encodable(f) && buf[..consumed] == FrameBytes(f, hasLength)
        && Emits(old(Abstract()), Abstract(), f)
        && (!hasLength ==> max - consumed < 2)
      ensures consumed > 0 <==> old(CanMake(max, alwaysLength))
      ensures consumed > 0 ==>
        && |f.data| == old(DataSize(max, alwaysLength))
        && hasLength == old(max - HeaderSize() >= 2 && !Fills(max - HeaderSize(), Want(), alwaysLength))
      ensures Counted(old(cnxDataSent), old(cnxMaxdataRemote), if consumed > 0 then |f.data| else 0)
      ensures ret == 0 <==> consumed > 0 || !old(HasWork())
    {
      hide Pending, FrameBytes, TypeByte, StartBytes, Fills, Carried, Emits;
      ret, consumed, f, hasLength := 0, 0, Frame(0, 0, [], false), false;
      if queue == [] && (!finNotified || finSent) { return; }
      var ok, at := BeginFrame(buf, max);
      if !ok { ret := FRAME_BUFFER_TOO_SMALL; return; }
      ret, consumed, f, hasLength := FillFrame(buf, at, max, alwaysLength);
    }
  }

  /** A length field of zero fits wherever one is tried; some data goes with any other one. */
  lemma SomeData(space: nat, want: nat, alwaysLength: bool)
    requires want < VARINT_LIMIT
    ensures want == 0 && space >= 2 ==> LengthFits(space, 0) && Carried(space, 0) == 0
    ensures 0 < want && LengthFits(space, want) ==> Carried(space, want) > 0
    ensures Fills(space, want, alwaysLength) ==> 2 <= space <= want
  {
    assert |Encode(0)| == 1;
  }

  /** Setting the length and end bits of a type byte. */
  lemma TypeBits(hasOffset: bool)
    ensures TypeByte(hasOffset, false, false) == if hasOffset then 0x14 else 0x10
    ensures forall l, f ::
      TypeByte(hasOffset, l, f)
      == TypeByte(hasOffset, false, false) + (if l then 2 else 0) + (if f then 1 else 0)
  {
  }

  /** The queue is empty exactly when nothing is pending. */
  lemma PendingHead(q: seq<Node>)
    requires AllLeft(q)
    ensures q == [] <==> Pending(q) == []
    ensures q != [] ==> |Left(q[0])| <= |Pending(q)|
  {
  }

  /** The bytes between the type byte and the length. */
  ghost function StartBytes(id: nat, offset: nat): seq<byte>
    requires id < VARINT_LIMIT && offset < VARINT_LIMIT
  {
    EncodeAll(Fields(Frame(id, offset, [], false), false))
  }

  lemma StartIs(id: nat, offset: nat)
    requires id < VARINT_LIMIT && offset < VARINT_LIMIT
    ensures StartBytes(id, offset) == Encode(id) + if offset > 0 then Encode(offset) else []
  {
    hide Encode, EncodeAll;
    EncodeNothing();
    EncodeAllCons(id, []);
    EncodeAllCons(offset, []);
    EncodeAllCons(id, [offset]);
    assert [id] + [] == [id] && [offset] + [] == [offset] && [id] + [offset] == [id, offset];
    assert Fields(Frame(id, offset, [], false), false) == if offset > 0 then [id, offset] else [id];
  }

  /** The fields of a frame are those of its start and perhaps a length. */
  lemma FieldsOf(f: Frame, hasLength: bool)
    requires Encodable(f)
    ensures FrameBytes(f, hasLength)
         == [TypeByte(f.offset > 0, hasLength, f.fin)]
            + (StartBytes(f.id, f.offset) + if hasLength then Encode(|f.data|) else []) + f.data
  {
    hide Encode, EncodeAll;
    var ns := Fields(Frame(f.id, f.offset, [], false), false);
    if hasLength {
      EncodeAllCons(|f.data|, []);
      EncodeNothing();
      assert [|f.data|] + [] == [|f.data|];
      EncodeAllAppend(ns, [|f.data|]);
      assert Fields(f, true) == ns + [|f.data|];
    } else {
      assert Fields(f, false) == ns;
    }
  }

  /** The type, without any bit set, and the stream. */
  method PutStream(buf: array<byte>, max: nat, id: nat) returns (l: nat)
    requires 1 <= max <= buf.Length && id < VARINT_LIMIT
    modifies buf
    ensures l == if |Encode(id)| <= max - 1 then |Encode(id)| else 0
    ensures buf[0] == STREAM_RANGE_MIN && buf[1..1 + l] == if l > 0 then Encode(id) else []
  {
    hide Encode;
    l := 0;
    buf[0] := STREAM_RANGE_MIN;
    assert buf[..1] == [STREAM_RANGE_MIN];
    if max > 1 {
      l := VarintEncode(buf, 1, max - 1, id);
    }
    assert buf[0] == buf[..1 + l][0] && buf[1..1 + l] == buf[..1 + l][1..];
  }

  /** The offset field and its bit in the type. */
  method PutOffset(buf: array<byte>, at: nat, max: nat, offset: nat) returns (l: nat)
    requires 1 <= at < max <= buf.Length && offset < VARINT_LIMIT && buf[0] == STREAM_RANGE_MIN
    modifies buf
    ensures l == if |Encode(offset)| <= max - at then |Encode(offset)| else 0
    ensures buf[0] == STREAM_RANGE_MIN + 4
    ensures buf[1..at + l] == old(buf[1..at]) + if l > 0 then Encode(offset) else []
  {
    hide Encode;
    buf[0] := buf[0] + 4;
    assert buf[..at] == [STREAM_RANGE_MIN + 4] + old(buf[1..at]);
    l := VarintEncode(buf, at, max - at, offset);
    assert buf[0] == buf[..at + l][0] && buf[1..at + l] == buf[..at + l][1..];
  }

  /** The data after the header, and the end-of-stream bit in the type. */
  method WriteData(buf: array<byte>, at: nat, data: seq<byte>, fin: bool)
    requires 1 <= at && at + |data| <= buf.Length && buf[0] < 0x20
    modifies buf
    ensures buf[..at + |data|] == [old(buf[0]) + (if fin then 1 else 0)] + old(buf[1..at]) + data
  {
    Put(buf, at, data);
    ghost var before := buf[..at + |data|];
    assert before[0] == before[..at][0] == old(buf[0]) && before[1..] == old(buf[1..at]) + data;
    if fin {
      buf[0] := buf[0] + 1;
    }
    assert buf[..at + |data|] == [buf[0]] + before[1..];
  }

  /** The length field, shrinking the data if that is what it takes to fit. */
  method PutLength(buf: array<byte>, at: nat, max: nat, wanted: nat) returns (l: nat, length: nat)
    requires at + 2 <= max <= buf.Length && wanted < VARINT_LIMIT
    modifies buf
    ensures l > 0 <==> LengthFits(max - at, wanted)
    ensures l > 0 ==> length == Carried(max - at, wanted) && length <= wanted && l == |Encode(length)|
    ensures l > 0 ==> at + l + length <= max
    ensures l > 0 ==> buf[..at + l] == old(buf[..at]) + Encode(length)
    ensures l > 0 ==> (length == 0 <==> wanted == 0)
  {
    assert |Encode(0)| == 1;
    hide Encode;
    length := wanted;
    l := VarintEncode(buf, at, max - at, length);
    if l == 0 || (l == max - at && length > 0) {
      return 0, 0;
    } else if length + l > max - at {
      length := max - at - l;
      EncodeMonotone(length, wanted);
      ghost var before := buf[..at + l];
      assert before[..at] == old(buf[..at]);
      assert buf[..at] == before[..at];
      l := VarintEncode(buf, at, max - at, length);
    }
  }
}
