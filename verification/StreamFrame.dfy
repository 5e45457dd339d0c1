/** STREAM frames on the wire (picoquic/frames.c). The low bits of the type byte say which
    fields are present: 1 ends the stream, 2 gives a length, 4 gives an offset. */
module StreamFrame {

  import opened Varint

  const STREAM_RANGE_MIN: byte := 0x10

  datatype Frame = Frame(id: nat, offset: nat, data: seq<byte>, fin: bool) {
    function End(): nat { offset + |data| }
  }

  ghost predicate Encodable(f: Frame) {
    f.id < VARINT_LIMIT && f.offset < VARINT_LIMIT && |f.data| < VARINT_LIMIT
  }

  function TypeByte(hasOffset: bool, hasLength: bool, fin: bool): byte {
    STREAM_RANGE_MIN + (if hasOffset then 4 else 0) + (if hasLength then 2 else 0)
    + (if fin then 1 else 0)
  }

  function HasFin(b: byte): bool { b % 2 == 1 }
  function HasLength(b: byte): bool { b / 2 % 2 == 1 }
  function HasOffset(b: byte): bool { b / 4 % 2 == 1 }

  /** The numbers after the type byte; an offset of zero is left out. */
  function Fields(f: Frame, hasLength: bool): seq<nat> {
    [f.id] + (if f.offset > 0 then [f.offset] else []) + (if hasLength then [|f.data|] else [])
  }

  function FrameBytes(f: Frame, hasLength: bool): seq<byte>
    requires Encodable(f)
  {
    [TypeByte(f.offset > 0, hasLength, f.fin)] + EncodeAll(Fields(f, hasLength)) + f.data
  }

  /** picoquic_parse_stream_header and parse_stream_frame: without a length, the data is
      all that remains. */
  function Parse(s: seq<byte>): Option<Read<Frame>> {
    if s == [] then None
    else
      var fields := 1 + (if HasOffset(s[0]) then 1 else 0) + (if HasLength(s[0]) then 1 else 0);
      match DecodeAll(s[1..], fields)
      case None => None
      case Some(h) =>
        var at := 1 + h.length;
        var offset := if HasOffset(s[0]) then h.value[1] else 0;
        var length := if HasLength(s[0]) then h.value[fields - 1] else |s| - at;
        if at + length > |s| then None
        else Some(Read(Frame(h.value[0], offset, s[at..at + length], HasFin(s[0])), at + length))
  }

  /** Reading a frame back. With a length the frame ends where it was written to end;
      without one it swallows whatever follows. */
  lemma ParseFrameBytes(f: Frame, hasLength: bool, rest: seq<byte>)
    requires Encodable(f)
    ensures var bytes := FrameBytes(f, hasLength);
            Parse(bytes + rest)
            == if hasLength then Some(Read(f, |bytes|))
               else Some(Read(f.(data := f.data + rest), |bytes + rest|))
  {
    hide EncodeAll, DecodeAll;
    var ns, bytes := Fields(f, hasLength), FrameBytes(f, hasLength);
    var s := bytes + rest;
    var e := EncodeAll(ns);
    assert s[1..] == e + (f.data + rest);
    DecodeAllEncodeAll(ns, f.data + rest);
    assert DecodeAll(s[1..], |ns|).value.value == ns;
    assert s[1 + |e|..1 + |e| + |f.data|] == f.data;
    assert s[1 + |e|..|s|] == f.data + rest;
  }

  /** So a frame is recovered from among other bytes exactly when it carries a length or is
      the last thing in its packet. */
  lemma RecoveredIff(f: Frame, hasLength: bool, rest: seq<byte>)
    requires Encodable(f)
    ensures (hasLength || rest == []) <==>
            Parse(FrameBytes(f, hasLength) + rest) == Some(Read(f, |FrameBytes(f, hasLength)|))
  {
    hide FrameBytes, Parse;
    ParseFrameBytes(f, hasLength, rest);
    assert f.data + [] == f.data;
  }

  /** picoquic_parse_stream_header, followed by the slice of parse_stream_frame;
      `consumed == 0` for an error. */
  method ParseFrame(s: seq<byte>) returns (f: Frame, consumed: nat)
    requires s != []
    ensures Parse(s) == if consumed > 0 then Some(Read(f, consumed)) else None
  {
    hide Decode, DecodeAll, Reading;
    f, consumed := Frame(0, 0, [], false), 0;
    ghost var n := 1 + (if HasOffset(s[0]) then 1 else 0) + (if HasLength(s[0]) then 1 else 0);
    ReadingNone(s, 1, n);
    var id, l := Next(s, 1, 1, [], n);
    if l == 0 { return; }
    var at, offset := 1 + l, 0;
    ghost var fields := [] + [id];
    if HasOffset(s[0]) {
      offset, l := Next(s, 1, at, fields, n - 1);
      if l == 0 { return; }
      at, fields := at + l, fields + [offset];
    }
    var length := |s| - at;
    if HasLength(s[0]) {
      length, l := Next(s, 1, at, fields, 1);
      if l == 0 { return; }
      at, fields := at + l, fields + [length];
    }
    ReadingAll(s, 1, at, fields);
    if at + length > |s| { return; }
    return Frame(id, offset, s[at..at + length], HasFin(s[0])), at + length;
  }
}
