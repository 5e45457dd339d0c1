/** Flow control on the receiving side: the limits granted to the peer, per stream and for
    the whole connection (picoquic/frames.c). */
module FlowControl {

  import opened Varint

  const FLOW_CONTROL_ERROR := 0x3

  /** A stream's limit and the highest offset the peer has used on it. */
  datatype Stream = Stream(maxData: nat, finOffset: nat)

  /** The connection's limit and how much of it has been used. */
  datatype Connection = Connection(maxData: nat, received: nat)

  datatype Admitted = Admitted(cnx: Connection, stream: Stream)

  /** picoquic_flow_control_check_stream_offset: None for FLOW_CONTROL_ERROR. The test for
      the connection's limit is arranged so that no 64-bit sum can overflow. */
  function Admit(cnx: Connection, stream: Stream, newOffset: nat): Option<Admitted> {
    if newOffset > stream.maxData then None
    else if newOffset > stream.finOffset then
      var more := newOffset - stream.finOffset;
      if more > cnx.maxData || cnx.maxData - more < cnx.received then None
      else Some(Admitted(cnx.(received := cnx.received + more),
                         stream.(finOffset := newOffset)))
    else Some(Admitted(cnx, stream))
  }

  /** The overflow-free test is the plain one. */
  lemma AdmitIff(cnx: Connection, stream: Stream, newOffset: nat)
    ensures Admit(cnx, stream, newOffset).Some? <==>
            && newOffset <= stream.maxData
            && (newOffset <= stream.finOffset
                || cnx.received + (newOffset - stream.finOffset) <= cnx.maxData)
  {
  }

  // ----------------------------------------------------------------------- all the streams

  datatype Endpoint = Endpoint(cnx: Connection, streams: seq<Stream>)

  datatype Step =
    | Open(maxData: nat)                    // a stream is created with its initial limit
    | Use(i: nat, newOffset: nat)           // data or the end of stream i arrives
    | RaiseStream(i: nat, maxData: nat)     // MAX_STREAM_DATA is sent
    | RaiseConnection(more: nat)            // MAX_DATA is sent

  ghost predicate CanStep(e: Endpoint, step: Step) {
    match step
    case Open(maxData) => true
    case Use(i, newOffset) => i < |e.streams|
    case RaiseStream(i, maxData) => i < |e.streams| && e.streams[i].maxData <= maxData
    case RaiseConnection(more) => true
  }

  /** A refused frame leaves the counters as they are. */
  function Apply(e: Endpoint, step: Step): Endpoint
    requires CanStep(e, step)
  {
    match step
    case Open(maxData) => e.(streams := e.streams + [Stream(maxData, 0)])
    case Use(i, newOffset) =>
      (match Admit(e.cnx, e.streams[i], newOffset)
       case None => e
       case Some(a) => Endpoint(a.cnx, e.streams[i := a.stream]))
    case RaiseStream(i, maxData) => e.(streams := e.streams[i := e.streams[i].(maxData := maxData)])
    case RaiseConnection(more) => e.(cnx := e.cnx.(maxData := e.cnx.maxData + more))
  }

  function Used(streams: seq<Stream>): nat {
    if streams == [] then 0 else Used(streams[..|streams| - 1]) + streams[|streams| - 1].finOffset
  }

  lemma {:induction false} UsedUpdate(streams: seq<Stream>, i: nat, s: Stream)
    requires i < |streams|
    ensures Used(streams[i := s]) == Used(streams) - streams[i].finOffset + s.finOffset
    decreases |streams|
  {
    var n := |streams| - 1;
    var t := streams[i := s];
    if i == n {
      assert t[..n] == streams[..n];
    } else {
      UsedUpdate(streams[..n], i, s);
      assert t[..n] == streams[..n][i := s];
    }
  }

  ghost predicate Inv(e: Endpoint) {
    && e.cnx.received == Used(e.streams) && e.cnx.received <= e.cnx.maxData
    && forall i :: 0 <= i < |e.streams| ==> e.streams[i].finOffset <= e.streams[i].maxData
  }

  lemma StepKeeps(e: Endpoint, step: Step)
    requires Inv(e) && CanStep(e, step)
    ensures Inv(Apply(e, step))
  {
    match step
    case Open(maxData) =>
      assert (e.streams + [Stream(maxData, 0)])[..|e.streams|] == e.streams;
    case Use(i, newOffset) =>
      match Admit(e.cnx, e.streams[i], newOffset) {
        case None =>
        case Some(a) => UsedUpdate(e.streams, i, a.stream);
      }
    case RaiseStream(i, maxData) =>
      UsedUpdate(e.streams, i, e.streams[i].(maxData := maxData));
    case RaiseConnection(more) =>
  }

  ghost predicate IsRun(states: seq<Endpoint>, steps: seq<Step>) {
    && |states| == |steps| + 1
    && states[0].cnx.received == 0 && states[0].streams == []
    && forall i :: 0 <= i < |steps| ==>
         CanStep(states[i], steps[i]) && states[i + 1] == Apply(states[i], steps[i])
  }

  lemma {:induction false} RunInv(states: seq<Endpoint>, steps: seq<Step>, n: nat)
    requires IsRun(states, steps) && n < |states|
    ensures Inv(states[n])
    decreases n
  {
    if n > 0 {
      RunInv(states, steps, n - 1);
      StepKeeps(states[n - 1], steps[n - 1]);
    }
  }

  /** In every run the connection's counter is the sum of the streams' highest offsets, and
      neither it nor any stream exceeds its limit. */
  lemma CountersAgree(states: seq<Endpoint>, steps: seq<Step>, n: nat)
    requires IsRun(states, steps) && n < |states|
    ensures states[n].cnx.received == Used(states[n].streams) <= states[n].cnx.maxData
    ensures forall i :: 0 <= i < |states[n].streams| ==>
              states[n].streams[i].finOffset <= states[n].streams[i].maxData
  {
    RunInv(states, steps, n);
  }
}
