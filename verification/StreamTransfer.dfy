/** Whole runs of one stream from the sending application to the receiving one, over a
    network that loses, duplicates, delays and reorders frames at will. */
module StreamTransfer {

  import opened Varint
  import opened FlowControl
  import opened Reassembly
  import opened MaxStreamData
  import F = StreamFrame
  import S = StreamSend

  /** Both ends and everything ever put on the wire. `app` is all the application has
      queued; `cuts` and `accepted` only remember the past: where the stream has been cut,
      and which frames the receiver has taken without error. */
  datatype State = State(sender: S.State, app: seq<byte>,
                         wire: set<seq<byte>>, grants: set<seq<byte>>,
                         receiver: Receiver, cnx: Connection, error: int,
                         cuts: set<nat>, accepted: set<seq<byte>>)

  datatype Step =
    | Write(data: seq<byte>, setFin: bool)            // the application queues data
    | Emit(frame: F.Frame, hasLength: bool)           // a STREAM frame is sent
    | Arrive(bytes: seq<byte>, rest: seq<byte>)       // ... and arrives
    | GrantMore                                       // a MAX_STREAM_DATA frame is sent
    | GrantArrives(bytes: seq<byte>, rest: seq<byte>) // ... and arrives
    | OtherStreams(cnx: Connection)                   // the rest of the connection moves on

  ghost predicate Initial(s: State) {
    && s.sender.id < VARINT_LIMIT && s.sender.maxData <= s.receiver.maxData
    && s.sender == S.State(s.sender.id, 0, [], s.sender.maxData, false, false)
    && s.receiver == Receiver([], 0, 0, s.receiver.maxData, false, false, [])
    && s.app == [] && s.wire == {} && s.grants == {} && s.error == 0
    && s.cuts == {0} && s.accepted == {}
  }

  /** What remains after a frame has been taken from what is pending. */
  function Sent(s: S.State, f: F.Frame): S.State
    requires |f.data| <= |s.pending|
  {
    s.(sent := f.End(), pending := s.pending[|f.data|..], finSent := s.finSent || f.fin)
  }

  ghost predicate CanStep(s: State, step: Step) {
    match step
    case Write(data, setFin) =>
      // Offsets are below 2^62.
      |s.app| + |data| < VARINT_LIMIT
    case Emit(f, hasLength) =>
      |f.data| <= |s.sender.pending| && F.Encodable(f) && S.Emits(s.sender, Sent(s.sender, f), f)
    case Arrive(bytes, rest) =>
      // A frame without a length is the last one of its packet.
      bytes in s.wire && s.error == 0 && bytes != [] && (F.HasLength(bytes[0]) || rest == [])
      && Ordered(s.receiver.chunks, s.receiver.consumed)
    case GrantMore =>
      s.error == 0 && Wants(s.receiver) && NewLimit(s.receiver) < U64 && s.sender.id < U64
    case GrantArrives(bytes, rest) => bytes in s.grants
    case OtherStreams(cnx) => true
  }

  /** The receiver's end of an arriving frame. */
  function Arrives(s: State, f: F.Frame): Outcome
    requires Ordered(s.receiver.chunks, s.receiver.consumed)
  {
    Input(s.receiver, s.cnx, f.offset, f.data, f.fin)
  }

  const FRAME_FORMAT_ERROR := 0x7

  ghost function Apply(s: State, step: Step): State
    requires CanStep(s, step)
  {
    match step
    case Write(data, setFin) =>
      s.(sender := S.Added(s.sender, data, setFin),
         app := if setFin && s.sender.finNotified then s.app else s.app + data)
    case Emit(f, hasLength) =>
      s.(sender := Sent(s.sender, f), wire := s.wire + {F.FrameBytes(f, hasLength)},
         cuts := s.cuts + {f.End()})
    case Arrive(bytes, rest) =>
      (match F.Parse(bytes + rest)
       case None => s.(error := FRAME_FORMAT_ERROR)
       case Some(r) =>
         var o := Arrives(s, r.value);
         s.(receiver := o.receiver, cnx := o.cnx, error := o.ret,
            accepted := if o.ret == 0 then s.accepted + {bytes} else s.accepted))
    case GrantMore =>
      s.(receiver := s.receiver.(maxData := NewLimit(s.receiver)),
         grants := s.grants + {GrantBytes(s.sender.id, NewLimit(s.receiver))})
    case GrantArrives(bytes, rest) =>
      (match ParseGrant(bytes + rest)
       case None => s
       case Some(g) =>
         if g.id == s.sender.id && g.limit > s.sender.maxData
         then s.(sender := s.sender.(maxData := g.limit)) else s)
    case OtherStreams(cnx) => s.(cnx := cnx)
  }

  ghost predicate IsRun(states: seq<State>, steps: seq<Step>) {
    && |states| == |steps| + 1 && Initial(states[0])
    && forall i :: 0 <= i < |steps| ==>
         CanStep(states[i], steps[i]) && states[i + 1] == Apply(states[i], steps[i])
  }

  // ------------------------------------------------------------------------------ invariant

  ghost predicate SenderOk(s: State) {
    && s.sender.sent + |s.sender.pending| == |s.app| < VARINT_LIMIT && s.sender.id < VARINT_LIMIT
    && s.sender.pending == s.app[s.sender.sent..]
    && (s.sender.finSent ==> s.sender.finNotified)
    && 0 in s.cuts && s.sender.sent in s.cuts && (forall c :: c in s.cuts ==> c <= s.sender.sent)
  }

  ghost predicate LimitsOk(s: State) {
    && s.sender.sent <= s.sender.maxData <= s.receiver.maxData
    && forall g :: g in s.grants ==> GrantOk(g, s.sender.id, s.receiver.maxData)
  }

  ghost predicate GrantOk(g: seq<byte>, id: nat, limit: nat) {
    exists l :: GrantFor(g, id, l, limit)
  }

  ghost predicate GrantFor(g: seq<byte>, id: nat, l: nat, limit: nat) {
    id < VARINT_LIMIT && l < U64 && l <= limit && g == GrantBytes(id, l)
  }

  /** A frame on the wire: one piece of the stream as it has been cut, with the bytes the
      application put there. */
  ghost predicate FrameOk(s: State, w: seq<byte>, f: F.Frame, hasLength: bool) {
    && F.Encodable(f) && w == F.FrameBytes(f, hasLength) && f.id == s.sender.id
    && Agrees(Chunk(f.offset, f.data), s.app) && f.End() <= s.sender.sent
    && OnePiece(s.cuts, f.offset, f.End())
    && (f.fin ==> s.sender.finSent)
  }

  ghost predicate WireOk(s: State, w: seq<byte>) {
    exists f, hasLength :: FrameOk(s, w, f, hasLength)
  }

  ghost predicate ReceiverOk(s: State) {
    && Good(s.receiver, s.app, s.cuts)
    && s.receiver.finOffset <= s.sender.sent
    && (s.error == 0 ==> Settled(s.receiver))
  }

  /** The receiver holds all of an accepted frame. */
  ghost predicate Holds(r: Receiver, f: F.Frame) {
    && (forall x :: f.offset <= x < f.End() ==> Has(r, x))
    && (f.fin ==> r.finReceived)
  }

  ghost predicate AcceptedOk(s: State, w: seq<byte>) {
    exists f, hasLength :: FrameOk(s, w, f, hasLength) && Holds(s.receiver, f)
  }

  /** Every byte sent is in some frame, and so is the end of the stream. */
  ghost predicate AllOnWire(s: State) {
    && (forall x: nat :: x < s.sender.sent ==> OnWire(s, x))
    && (s.sender.finSent ==> FinOnWire(s))
  }

  ghost predicate OnWire(s: State, x: nat) {
    exists w, f, hasLength ::
      w in s.wire && FrameOk(s, w, f, hasLength) && f.offset <= x < f.End()
  }

  ghost predicate FinOnWire(s: State) {
    exists w, f, hasLength :: w in s.wire && FrameOk(s, w, f, hasLength) && f.fin
  }

  ghost predicate Inv(s: State) {
    && SenderOk(s) && LimitsOk(s) && ReceiverOk(s) && AllOnWire(s)
    && (forall w :: w in s.wire ==> WireOk(s, w))
    && (forall w :: w in s.accepted ==> AcceptedOk(s, w))
  }

  // --------------------------------------------------------------- what a step cannot undo

  /** The stream only grows, at its end. */
  ghost predicate Extends(s: State, s': State) {
    && s'.sender.id == s.sender.id && s.app <= s'.app && s.sender.sent <= s'.sender.sent
    && s.cuts <= s'.cuts && (forall c :: c in s'.cuts - s.cuts ==> s.sender.sent <= c)
    && (s.sender.finSent ==> s'.sender.finSent)
  }

  lemma FrameStays(s: State, s': State, w: seq<byte>, f: F.Frame, hasLength: bool)
    requires FrameOk(s, w, f, hasLength) && Extends(s, s')
    ensures FrameOk(s', w, f, hasLength)
  {
    hide F.FrameBytes;
    assert forall c :: c in s'.cuts ==> c in s.cuts || c in s'.cuts - s.cuts;
  }

  lemma WireStays(s: State, s': State, w: seq<byte>)
    requires WireOk(s, w) && Extends(s, s')
    ensures WireOk(s', w)
  {
    hide FrameOk, Extends;
    var f, hasLength :| FrameOk(s, w, f, hasLength);
    FrameStays(s, s', w, f, hasLength);
  }

  /** The receiver forgets nothing. */
  ghost predicate KeepsAll(r: Receiver, r': Receiver) {
    (forall x: nat :: Has(r, x) ==> Has(r', x)) && (r.finReceived ==> r'.finReceived)
  }

  lemma AcceptedStays(s: State, s': State, w: seq<byte>)
    requires AcceptedOk(s, w) && Extends(s, s') && KeepsAll(s.receiver, s'.receiver)
    ensures AcceptedOk(s', w)
  {
    hide FrameOk, Extends, Has;
    var f, hasLength :| FrameOk(s, w, f, hasLength) && Holds(s.receiver, f);
    FrameStays(s, s', w, f, hasLength);
  }

  lemma OnWireStays(s: State, s': State, x: nat)
    requires OnWire(s, x) && Extends(s, s') && s.wire <= s'.wire
    ensures OnWire(s', x)
  {
    hide FrameOk, Extends;
    var w, f, hasLength :|
      w in s.wire && FrameOk(s, w, f, hasLength) && f.offset <= x < f.End();
    FrameStays(s, s', w, f, hasLength);
  }

  lemma FinOnWireStays(s: State, s': State)
    requires FinOnWire(s) && Extends(s, s') && s.wire <= s'.wire
    ensures FinOnWire(s')
  {
    hide FrameOk, Extends;
    var w, f, hasLength :| w in s.wire && FrameOk(s, w, f, hasLength) && f.fin;
    FrameStays(s, s', w, f, hasLength);
  }

  lemma GoodStays(r: Receiver, stream: seq<byte>, cuts: set<nat>, stream': seq<byte>, cuts': set<nat>)
    requires Good(r, stream, cuts) && stream <= stream' && cuts <= cuts'
    ensures Good(r, stream', cuts')
  {
    hide Ordered;
    assert stream'[..r.consumed] == stream[..r.consumed];
    forall i | 0 <= i < |r.chunks| ensures Agrees(r.chunks[i], stream') {
      var c := r.chunks[i];
      assert Agrees(c, stream);
      assert stream'[c.offset..c.End()] == stream[c.offset..c.End()];
    }
  }

  /** What a step that sends no STREAM frame has to show. */
  lemma Preserves(s: State, s': State)
    requires Inv(s) && SenderOk(s') && LimitsOk(s') && ReceiverOk(s')
    requires Extends(s, s') && KeepsAll(s.receiver, s'.receiver)
    requires s'.wire == s.wire && forall w :: w in s'.accepted - s.accepted ==> AcceptedOk(s', w)
    requires s'.sender.sent == s.sender.sent && s'.sender.finSent == s.sender.finSent
    ensures Inv(s')
  {
    hide SenderOk, LimitsOk, ReceiverOk, WireOk, AcceptedOk, OnWire, FinOnWire, Extends, KeepsAll;
    forall w | w in s.wire ensures WireOk(s', w) { WireStays(s, s', w); }
    forall w | w in s'.accepted ensures AcceptedOk(s', w) {
      if w in s.accepted { AcceptedStays(s, s', w); }
    }
    forall x: nat | x < s.sender.sent ensures OnWire(s', x) { OnWireStays(s, s', x); }
    if s.sender.finSent { FinOnWireStays(s, s'); }
  }

  // ------------------------------------------------------------------------- step by step

  lemma WriteKeeps(s: State, data: seq<byte>, setFin: bool)
    requires Inv(s) && CanStep(s, Write(data, setFin))
    ensures Inv(Apply(s, Write(data, setFin)))
  {
    hide WireOk, AcceptedOk, AllOnWire, Good, Settled, GrantOk, Has;
    var s' := Apply(s, Write(data, setFin));
    GoodStays(s.receiver, s.app, s.cuts, s'.app, s'.cuts);
    assert s'.sender.pending == s'.app[s'.sender.sent..];
    Preserves(s, s');
  }

  lemma GrantMoreKeeps(s: State)
    requires Inv(s) && CanStep(s, GrantMore)
    ensures Inv(Apply(s, GrantMore))
  {
    hide WireOk, AcceptedOk, AllOnWire, GrantBytes;
    var s' := Apply(s, GrantMore);
    forall g | g in s'.grants ensures GrantOk(g, s'.sender.id, s'.receiver.maxData) {
      if g in s.grants {
        var l :| GrantFor(g, s.sender.id, l, s.receiver.maxData);
        assert GrantFor(g, s'.sender.id, l, s'.receiver.maxData);
      } else {
        assert GrantFor(g, s'.sender.id, s'.receiver.maxData, s'.receiver.maxData);
      }
    }
    Preserves(s, s');
  }

  lemma GrantArrivesKeeps(s: State, bytes: seq<byte>, rest: seq<byte>)
    requires Inv(s) && CanStep(s, GrantArrives(bytes, rest))
    ensures Inv(Apply(s, GrantArrives(bytes, rest)))
  {
    hide WireOk, AcceptedOk, AllOnWire, GrantBytes, ParseGrant, Good, Settled, Has;
    var l :| GrantFor(bytes, s.sender.id, l, s.receiver.maxData);
    ParseGrantBytes(s.sender.id, l, rest);
    Preserves(s, Apply(s, GrantArrives(bytes, rest)));
  }

  lemma OtherStreamsKeeps(s: State, cnx: Connection)
    requires Inv(s) && CanStep(s, OtherStreams(cnx))
    ensures Inv(Apply(s, OtherStreams(cnx)))
  {
    hide WireOk, AcceptedOk, AllOnWire, Good, Settled, Has, GrantOk;
    Preserves(s, Apply(s, OtherStreams(cnx)));
  }

  /** The frame just cut off the pending data is one piece of the stream. */
  lemma EmitFrame(s: State, f: F.Frame, hasLength: bool)
    requires Inv(s) && CanStep(s, Emit(f, hasLength))
    ensures var s' := Apply(s, Emit(f, hasLength));
            && SenderOk(s') && LimitsOk(s') && Extends(s, s')
            && FrameOk(s', F.FrameBytes(f, hasLength), f, hasLength)
  {
    hide WireOk, AcceptedOk, AllOnWire, ReceiverOk, GrantOk, F.FrameBytes;
    var s' := Apply(s, Emit(f, hasLength));
    assert f.data == s.app[s.sender.sent..][..|f.data|] == s.app[f.offset..f.End()];
    assert s'.sender.pending == s.app[f.End()..];
  }

  /** The invariant after one more frame, continuing the stream, is on the wire. */
  lemma OneMoreFrame(s: State, s': State, w: seq<byte>, f: F.Frame, hasLength: bool)
    requires Inv(s) && SenderOk(s') && LimitsOk(s') && ReceiverOk(s')
    requires Extends(s, s') && KeepsAll(s.receiver, s'.receiver) && FrameOk(s', w, f, hasLength)
    requires s'.wire == s.wire + {w} && s'.accepted == s.accepted
    requires f.offset == s.sender.sent && s'.sender.sent == f.End()
    requires s'.sender.finSent == (s.sender.finSent || f.fin)
    ensures Inv(s')
  {
    hide FrameOk, Extends, ReceiverOk, LimitsOk, SenderOk, KeepsAll, F.FrameBytes;
    assert WireOk(s', w);
    forall v | v in s'.wire ensures WireOk(s', v) {
      if v in s.wire { WireStays(s, s', v); }
    }
    forall v | v in s'.accepted ensures AcceptedOk(s', v) { AcceptedStays(s, s', v); }
    forall x: nat | x < s'.sender.sent ensures OnWire(s', x) {
      if x < s.sender.sent { OnWireStays(s, s', x); }
    }
    if s.sender.finSent {
      FinOnWireStays(s, s');
    }
  }

  /** A frame on the wire is read back as it was written. */
  lemma ReadBack(s: State, w: seq<byte>, f: F.Frame, hasLength: bool, rest: seq<byte>)
    requires FrameOk(s, w, f, hasLength)
    ensures w != []
    ensures F.HasLength(w[0]) || rest == [] ==> F.Parse(w + rest) == Some(Read(f, |w|))
  {
    F.RecoveredIff(f, hasLength, rest);
  }

  /** The receiver just before it buffers the data of frame f, once f is admitted. */
  function Ready(r: Receiver, f: F.Frame): Receiver {
    if r.finReceived then r
    else r.(finReceived := f.fin, finOffset := if f.End() > r.finOffset then f.End() else r.finOffset)
  }

  /** The frame contradicts the end of the stream that the receiver knows. */
  predicate Conflicts(r: Receiver, f: F.Frame) {
    r.finReceived && if f.fin then f.End() != r.finOffset else f.End() > r.finOffset
  }

  /** What a frame of the stream does on arrival: it is accepted, unless it contradicts the end
      that the receiver knows or exceeds the limit of the whole connection. */
  lemma ArriveOutcome(s: State, w: seq<byte>, f: F.Frame, hasLength: bool)
    requires SenderOk(s) && LimitsOk(s) && ReceiverOk(s) && s.error == 0
    requires FrameOk(s, w, f, hasLength)
    ensures Ordered(s.receiver.chunks, s.receiver.consumed)
    ensures var o, r := Arrives(s, f), Ready(s.receiver, f);
            if Conflicts(s.receiver, f)
            then o.ret == FINAL_OFFSET_ERROR && o.receiver == s.receiver
            else if o.ret == 0
            then o.receiver == Accept(r, f.offset, f.data, f.fin && !s.receiver.finReceived)
            else o.ret == FLOW_CONTROL_ERROR && !s.receiver.finReceived && f.End() > s.receiver.finOffset
                 && s.cnx.received + (f.End() - s.receiver.finOffset) > s.cnx.maxData
                 && o.receiver == s.receiver.(finReceived := f.fin)
  {
    hide Accept, F.FrameBytes;
    AdmitIff(s.cnx, Stream(s.receiver.maxData, s.receiver.finOffset), f.End());
  }

  lemma ReadyGood(s: State, w: seq<byte>, f: F.Frame, hasLength: bool)
    requires SenderOk(s) && ReceiverOk(s) && s.error == 0 && FrameOk(s, w, f, hasLength)
    requires !Conflicts(s.receiver, f)
    ensures var r := Ready(s.receiver, f);
            && Good(r, s.app, s.cuts) && f.End() <= r.finOffset <= s.sender.sent
            && (Settled(r) || (f.fin && !s.receiver.finReceived))
            && (f.fin ==> r.finReceived)
            && r.maxData == s.receiver.maxData && r.chunks == s.receiver.chunks
            && r.consumed == s.receiver.consumed
            && (s.receiver.finReceived ==> r.finReceived)
  {
    hide F.FrameBytes, Ordered;
  }

  /** An accepted frame leaves a good, settled receiver that holds all of it. */
  lemma ArriveAccepted(s: State, w: seq<byte>, f: F.Frame, hasLength: bool, r': Receiver)
    requires SenderOk(s) && LimitsOk(s) && ReceiverOk(s) && s.error == 0
    requires FrameOk(s, w, f, hasLength) && !Conflicts(s.receiver, f)
    requires Ordered(s.receiver.chunks, s.receiver.consumed)
    requires r' == Accept(Ready(s.receiver, f), f.offset, f.data, f.fin && !s.receiver.finReceived)
    ensures KeepsAll(s.receiver, r') && Holds(r', f)
    ensures Good(r', s.app, s.cuts) && Settled(r') && r'.finOffset <= s.sender.sent
    ensures r'.finReceived == Ready(s.receiver, f).finReceived
    ensures r'.finOffset == Ready(s.receiver, f).finOffset
    ensures r'.maxData == s.receiver.maxData
  {
    hide Accept, F.FrameBytes, Has, Settled;
    var r, notify := Ready(s.receiver, f), f.fin && !s.receiver.finReceived;
    ReadyGood(s, w, f, hasLength);
    AcceptGood(r, f.offset, f.data, notify, s.app, s.cuts);
    forall x: nat
      ensures Has(s.receiver, x) || f.offset <= x < f.End() ==> Has(r', x)
    {
      SameHas(s.receiver, r, x);
      AcceptHas(r, f.offset, f.data, notify, s.cuts, x);
    }
  }

  lemma SameHas(r: Receiver, t: Receiver, x: nat)
    requires t.chunks == r.chunks && t.consumed == r.consumed
    ensures Has(t, x) <==> Has(r, x)
  {
  }

  lemma ArriveApplies(s: State, bytes: seq<byte>, rest: seq<byte>, f: F.Frame, hasLength: bool)
    requires Inv(s) && CanStep(s, Arrive(bytes, rest)) && FrameOk(s, bytes, f, hasLength)
    ensures Ordered(s.receiver.chunks, s.receiver.consumed)
    ensures var s', o := Apply(s, Arrive(bytes, rest)), Arrives(s, f);
            s' == s.(receiver := o.receiver, cnx := o.cnx, error := o.ret,
                     accepted := if o.ret == 0 then s.accepted + {bytes} else s.accepted)
  {
    hide FrameOk;
    ReadBack(s, bytes, f, hasLength, rest);
    hide Arrives;
  }

  lemma ArriveKeeps(s: State, bytes: seq<byte>, rest: seq<byte>)
    requires Inv(s) && CanStep(s, Arrive(bytes, rest))
    ensures Inv(Apply(s, Arrive(bytes, rest)))
  {
    var f, hasLength :| FrameOk(s, bytes, f, hasLength);
    ArriveApplies(s, bytes, rest, f, hasLength);
    hide Apply, CanStep, FrameOk, Arrives, WireOk, AcceptedOk, AllOnWire, GrantOk;
    ArriveOutcome(s, bytes, f, hasLength);
    var s', o := Apply(s, Arrive(bytes, rest)), Arrives(s, f);
    if o.ret == 0 {
      ArriveAccepted(s, bytes, f, hasLength, o.receiver);
      hide Good, Settled, Holds, KeepsAll;
      AcceptedNow(s, s', bytes, f, hasLength);
      Preserves(s, s');
    } else {
      hide Accept;
      assert Good(s'.receiver, s.app, s.cuts);
      hide Good;
      Preserves(s, s');
    }
  }

  lemma AcceptedNow(s: State, s': State, w: seq<byte>, f: F.Frame, hasLength: bool)
    requires FrameOk(s, w, f, hasLength) && Extends(s, s') && Holds(s'.receiver, f)
    ensures AcceptedOk(s', w)
  {
    hide F.FrameBytes, Has, FrameOk, Extends;
    FrameStays(s, s', w, f, hasLength);
  }

  lemma StepKeeps(s: State, step: Step)
    requires Inv(s) && CanStep(s, step)
    ensures Inv(Apply(s, step))
  {
    match step
    case Write(data, setFin) => WriteKeeps(s, data, setFin);
    case Emit(f, hasLength) =>
      var s' := Apply(s, Emit(f, hasLength));
      EmitFrame(s, f, hasLength);
      GoodStays(s.receiver, s.app, s.cuts, s'.app, s'.cuts);
      hide F.FrameBytes, FrameOk, Good, Settled, SenderOk, LimitsOk, Extends;
      OneMoreFrame(s, s', F.FrameBytes(f, hasLength), f, hasLength);
    case Arrive(bytes, rest) => ArriveKeeps(s, bytes, rest);
    case GrantMore => GrantMoreKeeps(s);
    case GrantArrives(bytes, rest) => GrantArrivesKeeps(s, bytes, rest);
    case OtherStreams(cnx) => OtherStreamsKeeps(s, cnx);
  }

  lemma {:induction false} RunInv(states: seq<State>, steps: seq<Step>, i: nat)
    requires IsRun(states, steps) && i < |states|
    ensures Inv(states[i])
    decreases i
  {
    if i > 0 {
      RunInv(states, steps, i - 1);
      hide Inv, CanStep, Apply;
      StepKeeps(states[i - 1], steps[i - 1]);
    }
  }

  // -------------------------------------------------------------------------- main results

  /** The calls made by then are the first calls made later. */
  lemma StepCalls(s: State, step: Step)
    requires CanStep(s, step)
    ensures s.receiver.events <= Apply(s, step).receiver.events
  {
    hide F.Parse;
    if step.Arrive? {
      match F.Parse(step.bytes + step.rest)
      case None =>
      case Some(r) => InputCalls(s.receiver, s.cnx, r.value.offset, r.value.data, r.value.fin);
    }
  }

  lemma {:induction false} CallsGrow(states: seq<State>, steps: seq<Step>, i: nat, j: nat)
    requires IsRun(states, steps) && i <= j < |states|
    ensures states[i].receiver.events <= states[j].receiver.events
    decreases j
  {
    if i < j {
      var k: nat := j - 1;
      CallsGrow(states, steps, i, k);
      assert CanStep(states[k], steps[k]) && states[k + 1] == Apply(states[k], steps[k]);
      StepCalls(states[k], steps[k]);
    }
  }

  /** In every run, what the receiving application has been given is a prefix of what the
      sending application has queued: every byte once, in order, and never taken back. */
  lemma DeliveredInOrder(states: seq<State>, steps: seq<Step>, i: nat, j: nat)
    requires IsRun(states, steps) && i <= j < |states|
    ensures Delivered(states[i].receiver.events) <= states[i].app
    ensures |Delivered(states[i].receiver.events)| == states[i].receiver.consumed
    ensures states[i].receiver.events <= states[j].receiver.events
  {
    hide IsRun;
    RunInv(states, steps, i);
    CallsGrow(states, steps, i, j);
  }

  /** The last call made announces the end of the stream. */
  ghost predicate EndAnnounced(events: seq<Event>) {
    events != [] && events[|events| - 1].fin
  }

  /** In every run, once all frames sent have been accepted, in whatever order and however
      often, the application has been given all that was sent, and has been told of the end of
      the stream if that was sent. */
  lemma AllAcceptedMeansAllDelivered(states: seq<State>, steps: seq<Step>, i: nat)
    requires IsRun(states, steps) && i < |states|
    requires states[i].error == 0 && states[i].wire <= states[i].accepted
    ensures states[i].receiver.consumed == states[i].sender.sent <= |states[i].app|
    ensures Delivered(states[i].receiver.events) == states[i].app[..states[i].sender.sent]
    ensures states[i].sender.finSent ==>
              states[i].receiver.finSignalled && EndAnnounced(states[i].receiver.events)
  {
    hide IsRun;
    RunInv(states, steps, i);
    Complete(states[i]);
  }

  lemma Complete(s: State)
    requires Inv(s) && s.error == 0 && s.wire <= s.accepted
    ensures s.receiver.consumed == s.sender.sent
    ensures s.sender.finSent ==> s.receiver.finSignalled
  {
    hide F.FrameBytes, GrantOk;
    var r := s.receiver;
    if r.consumed < s.sender.sent {
      assert OnWire(s, r.consumed);
      var w, f, h :| w in s.wire && FrameOk(s, w, f, h) && f.offset <= r.consumed < f.End();
      var f', h' :| FrameOk(s, w, f', h') && Holds(r, f');
      SameFrame(s, w, f, h, f', h');
      NextIsMissing(r);
      assert false;
    }
    if s.sender.finSent {
      var w, f, h :| w in s.wire && FrameOk(s, w, f, h) && f.fin;
      var f', h' :| FrameOk(s, w, f', h') && Holds(r, f');
      SameFrame(s, w, f, h, f', h');
    }
  }

  /** Wire bytes stand for one frame only. */
  lemma SameFrame(s: State, w: seq<byte>, f: F.Frame, h: bool, f': F.Frame, h': bool)
    requires FrameOk(s, w, f, h) && FrameOk(s, w, f', h')
    ensures f == f'
  {
    hide F.FrameBytes;
    SameBytes(f, h, f', h');
  }

  /** In a settled state the next byte to be delivered has not arrived. */
  lemma NextIsMissing(r: Receiver)
    requires Ordered(r.chunks, r.consumed) && Settled(r)
    ensures !Has(r, r.consumed)
  {
    forall i | 0 <= i < |r.chunks| ensures r.chunks[i].offset > r.consumed {
      if i > 0 { assert r.chunks[0].End() <= r.chunks[i].offset; }
    }
  }

  /** In every run, the end of the stream is announced by at most one call. That call is the
      last one ever made, and by then the application has been given the stream up to the final
      offset. */
  lemma EndAnnouncedOnceAndLast(states: seq<State>, steps: seq<Step>, i: nat, j: nat, k: nat)
    requires IsRun(states, steps) && i <= j < |states|
    requires k < |states[i].receiver.events| && states[i].receiver.events[k].fin
    ensures k == |states[i].receiver.events| - 1
    ensures states[j].receiver.events == states[i].receiver.events
    ensures var end := states[i].receiver.finOffset;
            && end <= |states[i].app| <= |states[j].app| && states[j].receiver.finOffset == end
            && Delivered(states[i].receiver.events) == states[i].app[..end] == states[j].app[..end]
  {
    hide IsRun;
    RunInv(states, steps, i);
    RunInv(states, steps, j);
    CallsGrow(states, steps, i, j);
    var r, t := states[i].receiver, states[j].receiver;
    assert t.events[k] == r.events[k];
    AppGrows(states, steps, i, j);
  }

  lemma {:induction false} AppGrows(states: seq<State>, steps: seq<Step>, i: nat, j: nat)
    requires IsRun(states, steps) && i <= j < |states|
    ensures states[i].app <= states[j].app
    decreases j
  {
    if i < j {
      AppGrows(states, steps, i, j - 1);
      assert CanStep(states[j - 1], steps[j - 1]);
      assert states[j] == Apply(states[j - 1], steps[j - 1]);
    }
  }

  /** Using the stream up to `end` would be within its limit but not the connection's. */
  ghost predicate OverConnectionLimit(s: State, end: nat) {
    && s.receiver.finOffset < end <= s.receiver.maxData
    && s.cnx.received + (end - s.receiver.finOffset) > s.cnx.maxData
  }

  // ------------------------------------------------------------- an end that stays the end

  /** The application queues data after the end of the stream was sent. (With another end of
      stream the data would be refused.) */
  ghost predicate IsLate(s: State, step: Step) {
    step.Write? && s.sender.finSent && step.data != [] && !step.setFin
  }

  ghost predicate NoLateWrite(states: seq<State>, steps: seq<Step>, n: nat)
    requires n <= |steps| < |states|
  {
    forall i :: 0 <= i < n ==> !IsLate(states[i], steps[i])
  }

  ghost predicate EndOnWire(s: State, f: F.Frame, hasLength: bool) {
    F.Encodable(f) && f.fin && F.FrameBytes(f, hasLength) in s.wire
  }

  /** Whatever speaks of the end of the stream means the end of all that was ever queued. */
  ghost predicate OneEnd(s: State) {
    && (s.sender.finSent ==> s.sender.pending == [])
    && (forall f, hasLength :: EndOnWire(s, f, hasLength) ==> s.sender.finSent && f.End() == |s.app|)
    && (s.receiver.finSignalled || (s.error == 0 && s.receiver.finReceived) ==>
          s.sender.finSent && s.receiver.finOffset == |s.app|)
  }

  lemma SameBytes(f: F.Frame, h: bool, f': F.Frame, h': bool)
    requires F.Encodable(f) && F.Encodable(f') && F.FrameBytes(f, h) == F.FrameBytes(f', h')
    ensures f == f'
  {
    hide F.FrameBytes;
    F.RecoveredIff(f, h, []);
    F.RecoveredIff(f', h', []);
  }

  lemma EmitOneEnd(s: State, f: F.Frame, hasLength: bool)
    requires Inv(s) && OneEnd(s) && CanStep(s, Emit(f, hasLength))
    ensures OneEnd(Apply(s, Emit(f, hasLength)))
  {
    hide F.FrameBytes, WireOk, AcceptedOk, AllOnWire, ReceiverOk, LimitsOk;
    var s' := Apply(s, Emit(f, hasLength));
    forall g, h | EndOnWire(s', g, h) ensures s'.sender.finSent && g.End() == |s'.app| {
      assert F.FrameBytes(g, h) in s.wire ==> EndOnWire(s, g, h);
      if F.FrameBytes(g, h) == F.FrameBytes(f, hasLength) { SameBytes(f, hasLength, g, h); }
    }
  }

  lemma NoConflict(s: State, w: seq<byte>, f: F.Frame, hasLength: bool)
    requires SenderOk(s) && OneEnd(s) && s.error == 0 && w in s.wire && FrameOk(s, w, f, hasLength)
    ensures !Conflicts(s.receiver, f)
    ensures f.fin ==> s.sender.finSent && f.End() == |s.app|
  {
    assert f.fin ==> EndOnWire(s, f, hasLength);
    hide F.FrameBytes;
  }

  lemma ArriveOneEnd(s: State, bytes: seq<byte>, rest: seq<byte>)
    requires Inv(s) && OneEnd(s) && CanStep(s, Arrive(bytes, rest))
    ensures OneEnd(Apply(s, Arrive(bytes, rest)))
    ensures Apply(s, Arrive(bytes, rest)).error != FINAL_OFFSET_ERROR
  {
    var f, hasLength :| FrameOk(s, bytes, f, hasLength);
    ArriveApplies(s, bytes, rest, f, hasLength);
    ArriveOutcome(s, bytes, f, hasLength);
    NoConflict(s, bytes, f, hasLength);
    var s', o := Apply(s, Arrive(bytes, rest)), Arrives(s, f);
    if o.ret == 0 {
      ArriveAccepted(s, bytes, f, hasLength, o.receiver);
    }
    hide Apply, FrameOk, Arrives, Accept, F.FrameBytes, F.Parse, WireOk, AcceptedOk, AllOnWire, Good, Settled;
    assert forall g, h :: EndOnWire(s', g, h) ==> EndOnWire(s, g, h);
  }

  lemma StepOneEnd(s: State, step: Step)
    requires Inv(s) && OneEnd(s) && CanStep(s, step) && !IsLate(s, step)
    ensures OneEnd(Apply(s, step))
    ensures step.Arrive? ==> Apply(s, step).error != FINAL_OFFSET_ERROR
  {
    match step
    case Emit(f, hasLength) => EmitOneEnd(s, f, hasLength);
    case Arrive(bytes, rest) => ArriveOneEnd(s, bytes, rest);
    case _ =>
      hide F.FrameBytes, WireOk, AcceptedOk, AllOnWire, ReceiverOk, LimitsOk, ParseGrant;
      var s' := Apply(s, step);
      assert forall g, h :: EndOnWire(s', g, h) ==> EndOnWire(s, g, h);
  }

  lemma {:induction false} RunOneEnd(states: seq<State>, steps: seq<Step>, n: nat)
    requires IsRun(states, steps) && n < |states| && NoLateWrite(states, steps, n)
    ensures OneEnd(states[n])
    ensures n > 0 && steps[n - 1].Arrive? ==> states[n].error != FINAL_OFFSET_ERROR
    decreases n
  {
    if n > 0 {
      RunOneEnd(states, steps, n - 1);
      RunInv(states, steps, n - 1);
      assert CanStep(states[n - 1], steps[n - 1]) && !IsLate(states[n - 1], steps[n - 1]);
      hide Inv, OneEnd, CanStep, Apply, IsLate;
      StepOneEnd(states[n - 1], steps[n - 1]);
    }
  }

  /** As long as no data is queued after an end that was sent, a call that announces the end
      comes when the application has been given all that was ever queued, and no frame is
      answered with a final-offset error. */
  lemma EndMeansWholeStream(states: seq<State>, steps: seq<Step>, i: nat)
    requires IsRun(states, steps) && i < |states| && NoLateWrite(states, steps, i)
    ensures EndAnnounced(states[i].receiver.events) ==>
              Delivered(states[i].receiver.events) == states[i].app
    ensures i > 0 && steps[i - 1].Arrive? ==> states[i].error != FINAL_OFFSET_ERROR
  {
    RunInv(states, steps, i);
    RunOneEnd(states, steps, i);
    assert states[i].app[..|states[i].app|] == states[i].app;
  }

  /** In every run, a frame that arrives is answered with a final-offset error exactly when it
      contradicts the end known to the receiver, which then keeps what it has. */
  lemma RefusedIff(states: seq<State>, steps: seq<Step>, i: nat, f: F.Frame, hasLength: bool)
    requires IsRun(states, steps) && i < |steps| && steps[i].Arrive?
    requires F.Encodable(f) && steps[i].bytes == F.FrameBytes(f, hasLength)
    ensures states[i + 1].error == FINAL_OFFSET_ERROR <==> Conflicts(states[i].receiver, f)
    ensures Conflicts(states[i].receiver, f) ==> states[i + 1].receiver == states[i].receiver
  {
    RunInv(states, steps, i);
    var s, bytes, rest := states[i], steps[i].bytes, steps[i].rest;
    assert CanStep(s, Arrive(bytes, rest)) && states[i + 1] == Apply(s, Arrive(bytes, rest));
    var g, h :| FrameOk(s, bytes, g, h);
    SameBytes(f, hasLength, g, h);
    ArriveApplies(s, bytes, rest, g, h);
    ArriveOutcome(s, bytes, g, h);
    hide Inv, Apply, CanStep, FrameOk, Arrives, Accept, F.FrameBytes, F.Parse;
  }

  /** In every run, no honest frame breaks the limit of the stream: what is sent stays within the
      limit the sender knows, which never exceeds the one the receiver enforces. A frame that
      arrives is answered with a flow-control error exactly when, before the end is known, it
      takes the connection as a whole over its limit; besides that only the end of the stream can
      be contradicted. */
  lemma NeverOverStreamLimit(states: seq<State>, steps: seq<Step>, i: nat, f: F.Frame, hasLength: bool)
    requires IsRun(states, steps) && i < |steps| && steps[i].Arrive?
    requires F.Encodable(f) && steps[i].bytes == F.FrameBytes(f, hasLength)
    ensures f.End() <= states[i].sender.sent <= states[i].sender.maxData <= states[i].receiver.maxData
    ensures states[i + 1].error == FLOW_CONTROL_ERROR
            <==> !states[i].receiver.finReceived && OverConnectionLimit(states[i], f.End())
    ensures states[i + 1].error in {0, FLOW_CONTROL_ERROR, FINAL_OFFSET_ERROR}
  {
    RunInv(states, steps, i);
    var s, bytes, rest := states[i], steps[i].bytes, steps[i].rest;
    assert CanStep(s, Arrive(bytes, rest)) && states[i + 1] == Apply(s, Arrive(bytes, rest));
    var g, h :| FrameOk(s, bytes, g, h);
    SameBytes(f, hasLength, g, h);
    ArriveApplies(s, bytes, rest, g, h);
    ArriveOutcome(s, bytes, g, h);
    AdmitIff(s.cnx, Stream(s.receiver.maxData, s.receiver.finOffset), f.End());
    hide Inv, Apply, CanStep, Accept, F.FrameBytes, F.Parse;
  }

  /** At every state of every run, whatever is sent next. */
  lemma SenderWithinLimit(states: seq<State>, steps: seq<Step>, i: nat)
    requires IsRun(states, steps) && i < |states|
    ensures states[i].sender.sent <= states[i].sender.maxData <= states[i].receiver.maxData
  {
    hide IsRun;
    RunInv(states, steps, i);
  }

  /** The conditions on Arrive and GrantMore that are not about the network always hold. */
  lemma AlwaysReady(states: seq<State>, steps: seq<Step>, i: nat)
    requires IsRun(states, steps) && i < |states|
    ensures Ordered(states[i].receiver.chunks, states[i].receiver.consumed)
    ensures Wants(states[i].receiver) ==> NewLimit(states[i].receiver) < U64
    ensures states[i].sender.id < U64
  {
    hide IsRun;
    RunInv(states, steps, i);
  }

  /** What becomes of data queued after an end that was sent: picoquic_add_to_stream accepts it,
      the next frame carries it, and a receiver that knows the end refuses every such frame. */
  lemma LateDataIsRefused(sender: S.State, data: seq<byte>, f: F.Frame, sender': S.State,
                          r: Receiver, cnx: Connection)
    requires sender.finSent && sender.finNotified && sender.pending == [] && data != []
    requires S.Emits(S.Added(sender, data, false), sender', f)
    requires r.finReceived && r.finOffset == sender.sent && Ordered(r.chunks, r.consumed)
    ensures Input(r, cnx, f.offset, f.data, f.fin).ret == FINAL_OFFSET_ERROR
  {
  }

  // ---------------------------------------------------------------------------- a stalled stream

  /** The application has read everything up to the receiver's limit, and no end is known. */
  ghost predicate Stalled(s: State) {
    s.error == 0 && s.receiver.consumed == s.receiver.maxData && !s.receiver.finReceived
  }

  /** In every run, a stalled receiver wants to grant strictly more exactly when its limit is not
      zero: a stream that starts with nothing granted is never granted anything. */
  lemma StalledWantsMoreIff(states: seq<State>, steps: seq<Step>, i: nat)
    requires IsRun(states, steps) && i < |states| && Stalled(states[i])
    ensures states[i].sender.sent == states[i].sender.maxData == states[i].receiver.maxData
    ensures var r := states[i].receiver; (Wants(r) && NewLimit(r) > r.maxData) <==> r.maxData > 0
  {
    RunInv(states, steps, i);
    hide Good, Settled, AllOnWire, WireOk, AcceptedOk, GrantOk;
    ConsumedSent(states[i]);
  }

  lemma ConsumedSent(s: State)
    requires ReceiverOk(s)
    ensures s.receiver.consumed <= s.sender.sent
  {
  }

  /** And then the stream moves on: the grant can be sent; when it arrives, with whatever follows it,
      the sender's limit is the new one; and if data is waiting, a frame with data can be sent. */
  lemma StalledMovesOn(states: seq<State>, steps: seq<Step>, i: nat, rest: seq<byte>)
    requires IsRun(states, steps) && i < |states| && Stalled(states[i]) && states[i].receiver.maxData > 0
    requires NewLimit(states[i].receiver) < VARINT_LIMIT
    ensures var s := states[i];
            && CanStep(s, GrantMore)
            && var s1, grant := Apply(s, GrantMore), GrantBytes(s.sender.id, NewLimit(s.receiver));
               && CanStep(s1, GrantArrives(grant, rest))
               && var s2 := Apply(s1, GrantArrives(grant, rest));
                  && s2.sender == s.sender.(maxData := NewLimit(s.receiver))
                  && (s.sender.pending != [] ==>
                        exists f: F.Frame :: f.data != [] && CanStep(s2, Emit(f, true)))
  {
    StalledWantsMoreIff(states, steps, i);
    RunInv(states, steps, i);
    var s := states[i];
    hide Good, Settled, AllOnWire, WireOk, AcceptedOk, GrantOk, GrantBytes, ParseGrant;
    ParseGrantBytes(s.sender.id, NewLimit(s.receiver), rest);
    if s.sender.pending != [] {
      var p := s.sender.pending;
      var f := F.Frame(s.sender.id, s.sender.sent, p[..1], s.sender.finNotified && |p| == 1);
      var s2 := Apply(Apply(s, GrantMore), GrantArrives(GrantBytes(s.sender.id, NewLimit(s.receiver)), rest));
      assert f.data <= p && f.data != [];
      assert CanStep(s2, Emit(f, true));
    }
  }

  /** In every run, as long as the other streams rest, the connection counts every byte below the
      highest offset once, however often frames arrive. */
  lemma {:induction false} CountedOnce(states: seq<State>, steps: seq<Step>, a: nat, b: nat)
    requires IsRun(states, steps) && a <= b < |states| == |steps| + 1
    requires forall k :: a <= k < b ==> !steps[k].OtherStreams?
    ensures states[b].cnx.received - states[a].cnx.received
         == states[b].receiver.finOffset - states[a].receiver.finOffset
    ensures states[b].cnx.maxData == states[a].cnx.maxData
    decreases b - a
  {
    hide *;
    if a < b {
      RunStep(states, steps, b - 1);
      CountedOnce(states, steps, a, b - 1);
      StepCounts(states[b - 1], steps[b - 1]);
    }
  }

  lemma RunStep(states: seq<State>, steps: seq<Step>, i: nat)
    requires IsRun(states, steps) && i < |steps| < |states|
    ensures CanStep(states[i], steps[i]) && states[i + 1] == Apply(states[i], steps[i])
  {
    hide CanStep, Apply;
  }

  lemma StepCounts(s: State, step: Step)
    requires CanStep(s, step) && !step.OtherStreams?
    ensures var t := Apply(s, step);
            && t.cnx.received - s.cnx.received == t.receiver.finOffset - s.receiver.finOffset
            && t.cnx.maxData == s.cnx.maxData
  {
    hide Ordered, Input, F.Parse, F.FrameBytes, S.Added, S.Emits, ParseGrant, GrantBytes;
    if step.Arrive? {
      var r := F.Parse(step.bytes + step.rest);
      if r.Some? {
        var f := r.value.value;
        InputCounts(s.receiver, s.cnx, f.offset, f.data, f.fin);
      }
    }
  }
}
