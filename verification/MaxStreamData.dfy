/** MAX_STREAM_DATA frames, by which a receiver raises the limit of a stream
    (picoquic/frames.c). */
module MaxStreamData {

  import opened Varint
  import opened Reassembly

  const FRAME_TYPE_MAX_STREAM_DATA: byte := 5

  function GrantBytes(id: nat, limit: nat): seq<byte>
    requires id < U64 && limit < U64
  {
    [FRAME_TYPE_MAX_STREAM_DATA] + EncodeAll([id, limit])
  }

  datatype Grant = Grant(id: nat, limit: nat)

  /** parse_max_stream_data_frame. */
  function ParseGrant(s: seq<byte>): Option<Grant> {
    if s == [] then None
    else
      match DecodeAll(s[1..], 2)
      case None => None
      case Some(r) => Some(Grant(r.value[0], r.value[1]))
  }

  /** A grant read back never exceeds the limit written, even one too large for the format;
      below 2^62 it is that limit. */
  lemma ParseGrantBytes(id: nat, limit: nat, rest: seq<byte>)
    requires id < VARINT_LIMIT && limit < U64
    ensures var g := ParseGrant(GrantBytes(id, limit) + rest);
            && g.Some? && g.value.id == id && g.value.limit <= limit
            && (limit < VARINT_LIMIT ==> g.value.limit == limit)
  {
    hide EncodeAll, DecodeAll;
    var s := GrantBytes(id, limit) + rest;
    assert s[1..] == EncodeAll([id, limit]) + rest;
    DecodeAllEncodeAll([id, limit], rest);
  }

  /** The receiver asks for more when the application has read half of what was granted. */
  predicate Wants(r: Receiver) {
    !r.finReceived && 2 * r.consumed > r.maxData
  }

  function NewLimit(r: Receiver): nat {
    r.maxData + 2 * r.consumed
  }

  lemma GrantIs(id: nat, limit: nat)
    requires id < U64 && limit < U64
    ensures GrantBytes(id, limit) == [FRAME_TYPE_MAX_STREAM_DATA] + (Encode(id) + Encode(limit))
  {
    hide Encode, EncodeAll;
    EncodeAllCons(limit, []);
    EncodeAllCons(id, [limit]);
    EncodeNothing();
    assert [limit] + [] == [limit] && [id] + [limit] == [id, limit];
  }

  /** The part of prepare_required_max_stream_data_frames that deals with one stream, with
      picoquic_prepare_max_stream_data_frame. */
  method PrepareGrant(s: StreamHead, id: nat, buf: array<byte>, max: nat)
    returns (ret: int, consumed: nat)
    requires id < VARINT_LIMIT && 1 <= max <= buf.Length && NewLimit(s.Abstract()) < U64
    modifies s`maxdataLocal, buf
    ensures ret == 0 && consumed > 0 ==>
      && Wants(old(s.Abstract())) && s.maxdataLocal == NewLimit(old(s.Abstract()))
      && consumed <= max && buf[..consumed] == GrantBytes(id, s.maxdataLocal)
    ensures ret != 0 || consumed == 0 ==> s.maxdataLocal == old(s.maxdataLocal)
    ensures ret != 0 ==> ret == FRAME_BUFFER_TOO_SMALL && consumed == 0
    ensures var r := old(s.Abstract());
            && (consumed > 0 <==> Wants(r) && |GrantBytes(id, NewLimit(r))| <= max)
            && (ret == 0 <==> consumed > 0 || !Wants(r))
  {
    hide Encode, EncodeAll;
    GrantIs(id, NewLimit(s.Abstract()));
    ret, consumed := 0, 0;
    if !s.finReceived && 2 * s.consumedOffset > s.maxdataLocal {
      var limit := s.maxdataLocal + 2 * s.consumedOffset;
      var l1 := VarintEncode(buf, 1, max - 1, id);
      var l2 := VarintEncode(buf, 1 + l1, max - 1 - l1, limit);
      if l1 == 0 || l2 == 0 {
        ret := FRAME_BUFFER_TOO_SMALL;
      } else {
        ghost var written := buf[..1 + l1 + l2];
        buf[0] := FRAME_TYPE_MAX_STREAM_DATA;
        consumed := 1 + l1 + l2;
        s.maxdataLocal := limit;
        assert written[1..] == Encode(id) + Encode(limit);
        assert buf[..consumed] == [FRAME_TYPE_MAX_STREAM_DATA] + written[1..];
      }
    }
  }
}
