/** Whole runs of the FQ-CoDel scheduler, seen from one flow: its frames leave in the order they
    came, and CoDel discards them on its schedule (picoquic/fqCoDel.c). */
module FlowRuns {

  import opened Varint
  import opened FqCodel
  import opened CodelLaw
  import opened Fairness

  /** A run from the empty scheduler. */
  ghost predicate FullRun(states: seq<Sched>, ops: seq<Op>, flows: nat) {
    IsRun(states, ops) && states[0] == Init(flows)
  }

  /** The operation calls codel_dequeue for flow j. */
  ghost predicate Calls(s: Sched, op: Op, j: nat) {
    op.Turn? && HeadFlow(s) == Some(j) && j < |s.flows| && s.flows[j].credits > 0
  }

  ghost function TakenBy(s: Sched, op: Op, j: nat): Taken
    requires Calls(s, op, j)
  {
    CodelDequeue(s.flows[j].queue, s.flows[j].codel, op.now)
  }

  /** The frame that joins flow j. */
  function OpIn(op: Op, j: nat): seq<Frame> {
    if op.Enqueue? && op.flow == j then [op.frame] else []
  }

  /** The frames that leave flow j: discarded by CoDel or sent, or dropped over the limit. */
  ghost function OpOut(s: Sched, op: Op, j: nat): seq<Frame>
    requires CanStep(s, op)
  {
    match op
    case Enqueue(i, f, k) =>
      var t := Append(s, i, f);
      if OverLimit(t, i) && j == Largest(t.backlogs) then t.flows[j].queue[..k] else []
    case PeekHead => []
    case Turn(now) =>
      if Calls(s, op, j) then TakenBy(s, op, j).dropped + OutSeq(TakenBy(s, op, j).out) else []
  }

  /** The frames that CoDel looks at. */
  ghost function OpLooks(s: Sched, op: Op, j: nat): seq<Look>
    requires CanStep(s, op)
  {
    if op.Turn? then Looks(OpOut(s, op, j), op.now) else []
  }

  lemma EnqueueFifo(s: Sched, op: Op, j: nat)
    requires CanStep(s, op) && op.Enqueue? && j < |s.flows|
    ensures var s' := Apply(s, op);
            && j < |s'.flows| == |s.flows| && s'.flows[j].codel == s.flows[j].codel
            && s.flows[j].queue + OpIn(op, j) == OpOut(s, op, j) + s'.flows[j].queue
  {
    AppendKeeps(s, op.flow, op.frame);
    var t := Append(s, op.flow, op.frame);
    hide Inv, Largest;
    assert t.flows[j].queue == s.flows[j].queue + OpIn(op, j);
    var q := t.flows[j].queue;
    if OverLimit(t, op.flow) && j == Largest(t.backlogs) {
      assert q[..op.drops] + q[op.drops..] == q;
    }
  }

  lemma TurnFifo(s: Sched, op: Op, j: nat)
    requires CanStep(s, op) && op.Turn? && j < |s.flows|
    ensures var s' := Apply(s, op);
            && j < |s'.flows| == |s.flows|
            && s.flows[j].queue + OpIn(op, j) == OpOut(s, op, j) + s'.flows[j].queue
            && s'.flows[j].codel == if Calls(s, op, j) then TakenBy(s, op, j).codel else s.flows[j].codel
  {
    TurnFlows(s, op.now, j);
    CodelConserves(s.flows[j].queue, s.flows[j].codel, op.now);
    hide Inv, TakeTurn, CodelDequeue;
  }

  lemma PeekFlows(s: Sched)
    requires Inv(s)
    ensures Peek(s).flows == s.flows
  {
  }

  /** One operation: what was queued and what joins is what leaves and what is queued then. */
  lemma StepFifo(s: Sched, op: Op, j: nat)
    requires CanStep(s, op) && j < |s.flows|
    ensures var s' := Apply(s, op);
            && j < |s'.flows| == |s.flows|
            && s.flows[j].queue + OpIn(op, j) == OpOut(s, op, j) + s'.flows[j].queue
            && s'.flows[j].codel == if Calls(s, op, j) then TakenBy(s, op, j).codel else s.flows[j].codel
  {
    match op
    case Enqueue(i, f, k) => EnqueueFifo(s, op, j);
    case PeekHead =>
      PeekFlows(s);
      assert s.flows[j].queue + [] == [] + s.flows[j].queue;
    case Turn(now) => TurnFifo(s, op, j);
  }

  /** The frames enqueued to flow j by the first n operations, in order. */
  function Entered(ops: seq<Op>, j: nat, n: nat): seq<Frame>
    requires n <= |ops|
  {
    if n == 0 then [] else Entered(ops, j, n - 1) + OpIn(ops[n - 1], j)
  }

  /** The frames that have left it, in order. */
  ghost function Left(states: seq<Sched>, ops: seq<Op>, j: nat, n: nat): seq<Frame>
    requires IsRun(states, ops) && n <= |ops|
  {
    if n == 0 then [] else Left(states, ops, j, n - 1) + OpOut(states[n - 1], ops[n - 1], j)
  }

  /** The frames of it that CoDel has looked at, and when. */
  ghost function Log(states: seq<Sched>, ops: seq<Op>, j: nat, n: nat): seq<Look>
    requires IsRun(states, ops) && n <= |ops|
  {
    if n == 0 then [] else Log(states, ops, j, n - 1) + OpLooks(states[n - 1], ops[n - 1], j)
  }

  /** First in, first out: in every run, for every flow, the frames that left it, in order of
      leaving, followed by its queue are the frames enqueued to it, in order of enqueueing. */
  lemma {:induction false} Fifo(states: seq<Sched>, ops: seq<Op>, flows: nat, j: nat, n: nat)
    requires FullRun(states, ops, flows) && n <= |ops| && j < flows
    ensures j < |states[n].flows|
    ensures Left(states, ops, j, n) + states[n].flows[j].queue == Entered(ops, j, n)
  {
    if n > 0 {
      Fifo(states, ops, flows, j, n - 1);
      var s, op := states[n - 1], ops[n - 1];
      StepFifo(s, op, j);
      hide CanStep, Apply, OpOut;
      Regroup(Left(states, ops, j, n - 1), s.flows[j].queue, OpIn(op, j), OpOut(s, op, j),
              states[n].flows[j].queue);
    }
  }

  lemma Regroup(left: seq<Frame>, q: seq<Frame>, joins: seq<Frame>, leaves: seq<Frame>, q': seq<Frame>)
    requires q + joins == leaves + q'
    ensures (left + q) + joins == (left + leaves) + q'
  {
    assert (left + q) + joins == left + (q + joins);
    assert (left + leaves) + q' == left + (leaves + q');
  }

  /** The frame that a turn sends is the last of those that leave with it. */
  lemma SentLeavesLast(s: Sched, op: Op)
    requires CanStep(s, op) && op.Turn? && TakeTurn(s, op.now).turn.Sent?
    ensures var Sent(j, f) := TakeTurn(s, op.now).turn;
            var out := OpOut(s, op, j);
            out != [] && out[|out| - 1] == f && Calls(s, op, j)
  {
    var j := TakeTurn(s, op.now).turn.flow;
    HeadListed(s, HeadFlow(s).value);
    TurnFlows(s, op.now, j);
    hide Inv, CodelDequeue;
  }

  /** When frames are dropped over the limit: exactly when the bytes of the flow, with the new frame,
      reach its share of the buffer; and then they leave a flow that has no fewer bytes than any
      other. */
  lemma DropsIff(s: Sched, op: Op)
    requires CanStep(s, op) && op.Enqueue?
    ensures var s', i := Apply(s, op), op.flow;
            && |s'.newFlows| + |s'.oldFlows| > 0
            && ((exists j: nat :: j < |s.flows| && OpOut(s, op, j) != [])
                <==> Bytes(s.flows[i].queue + [op.frame])
                     >= QUEUE_SIZE / (|s'.newFlows| + |s'.oldFlows|))
    ensures forall j: nat, h: nat ::
              j < |s.flows| && h < |s.flows| && OpOut(s, op, j) != [] ==>
                Bytes(s.flows[h].queue + OpIn(op, h)) <= Bytes(s.flows[j].queue + OpIn(op, j))
  {
    var t, i := Append(s, op.flow, op.frame), op.flow;
    AppendKeeps(s, i, op.frame);
    StepLists(s, op);
    forall j: nat | j < |s.flows|
      ensures t.backlogs[j] == Bytes(s.flows[j].queue + OpIn(op, j))
    {
      assert t.flows[j].queue == s.flows[j].queue + OpIn(op, j);
    }
    var largest := Largest(t.backlogs);
    assert t.listed == |t.newFlows| + |t.oldFlows| && |t.backlogs| == |s.flows|;
    hide Bytes, Apply, Append, Inv, Largest;
    if OverLimit(t, i) { assert OpOut(s, op, largest) == t.flows[largest].queue[..op.drops] != []; }
  }

  lemma StepLists(s: Sched, op: Op)
    requires CanStep(s, op) && op.Enqueue?
    ensures var s', t := Apply(s, op), Append(s, op.flow, op.frame);
            s'.newFlows == t.newFlows && s'.oldFlows == t.oldFlows
  {
    hide Inv, Append, Largest;
  }

  // ----------------------------------------------------------------------------- CoDel over runs

  /** A call of codel_dequeue does to the flow what CoDel's law says; nothing else touches it. */
  lemma StepTracks(s: Sched, op: Op, j: nat, log: seq<Look>)
    requires CanStep(s, op) && j < |s.flows| && Tracks(s.flows[j].codel, log)
    ensures j < |Apply(s, op).flows| && Tracks(Apply(s, op).flows[j].codel, log + OpLooks(s, op, j))
    ensures Calls(s, op, j) ==>
              CallLaw(TakenBy(s, op, j), s.flows[j].codel, s.flows[j].queue, log, op.now)
  {
    StepFifo(s, op, j);
    hide Tracks, CanStep, Apply, CodelDequeue, KeepsSchedule, StartsSchedule, HandsOutFirst;
    if Calls(s, op, j) {
      CodelCall(s.flows[j].queue, s.flows[j].codel, op.now, log);
    } else {
      NoLooks(s, op, j);
      assert log + [] == log;
    }
  }

  lemma NoLooks(s: Sched, op: Op, j: nat)
    requires CanStep(s, op) && !Calls(s, op, j)
    ensures OpLooks(s, op, j) == []
  {
  }

  /** In every run CoDel remembers of every flow how long its frames have been late. */
  lemma {:induction false} RunTracks(states: seq<Sched>, ops: seq<Op>, flows: nat, j: nat, n: nat)
    requires FullRun(states, ops, flows) && n <= |ops| && j < flows
    ensures j < |states[n].flows| && Tracks(states[n].flows[j].codel, Log(states, ops, j, n))
  {
    if n == 0 {
      assert LateFrom([], 0);
      assert TracksFrom(states[0].flows[j].codel, [], 0);
    } else {
      hide Tracks, CanStep, Apply, OpLooks, CallLaw;
      RunTracks(states, ops, flows, j, n - 1);
      StepTracks(states[n - 1], ops[n - 1], j, Log(states, ops, j, n - 1));
    }
  }

  /** So in every run every call of codel_dequeue keeps CoDel's law: with all frames of the flow
      looked at before it as the log. */
  lemma RunLaw(states: seq<Sched>, ops: seq<Op>, flows: nat, j: nat, n: nat)
    requires FullRun(states, ops, flows) && n < |ops| && j < flows && Calls(states[n], ops[n], j)
    ensures var s, t := states[n], TakenBy(states[n], ops[n], j);
            && CallLaw(t, s.flows[j].codel, s.flows[j].queue, Log(states, ops, j, n), ops[n].now)
            && j < |states[n + 1].flows|
            && states[n + 1].flows[j].queue == t.queue && states[n + 1].flows[j].codel == t.codel
  {
    RunTracks(states, ops, flows, j, n);
    StepTracks(states[n], ops[n], j, Log(states, ops, j, n));
    StepFifo(states[n], ops[n], j);
    CodelConserves(states[n].flows[j].queue, states[n].flows[j].codel, ops[n].now);
    hide Tracks, CanStep, Apply, CodelDequeue, CallLaw;
  }

  /** In every run a frame is discarded only if it and every frame looked at since more than an
      interval before were late. */
  lemma DiscardedOnlyRipe(states: seq<Sched>, ops: seq<Op>, flows: nat, j: nat, n: nat, k: nat)
    requires FullRun(states, ops, flows) && n < |ops| && j < flows && Calls(states[n], ops[n], j)
    requires k < |TakenBy(states[n], ops[n], j).dropped|
    ensures var q := states[n].flows[j].queue;
            k < |q| && Ripe(After(Log(states, ops, j, n), q, k + 1, ops[n].now))
  {
    RunLaw(states, ops, flows, j, n);
    hide *;
    var s := states[n];
    RipeOnly(TakenBy(s, ops[n], j), s.flows[j].codel, s.flows[j].queue, Log(states, ops, j, n), ops[n].now, k);
  }

  /** Outside the dropping state, a ripe frame at the head of the queue is discarded. */
  lemma RipeIsDiscarded(states: seq<Sched>, ops: seq<Op>, flows: nat, j: nat, n: nat)
    requires FullRun(states, ops, flows) && n < |ops| && j < flows && Calls(states[n], ops[n], j)
    requires var q := states[n].flows[j].queue;
             q != [] && Ripe(Log(states, ops, j, n) + [Look(q[0], ops[n].now)])
    requires !states[n].flows[j].codel.dropping
    ensures TakenBy(states[n], ops[n], j).dropped == [states[n].flows[j].queue[0]]
  {
    RunLaw(states, ops, flows, j, n);
    hide CanStep, Apply, CodelDequeue, Ripe, Tracks, TakenBy;
  }

  // ------------------------------------------------------------------------- the dropping state

  /** The frames of flow j that CoDel discards in one operation. */
  ghost function OpDiscards(s: Sched, op: Op, j: nat): nat {
    if Calls(s, op, j) then |TakenBy(s, op, j).dropped| else 0
  }

  ghost function Discards(states: seq<Sched>, ops: seq<Op>, j: nat, a: nat, b: nat): nat
    requires a <= b <= |ops| < |states|
    decreases b - a
  {
    if a == b then 0 else Discards(states, ops, j, a, b - 1) + OpDiscards(states[b - 1], ops[b - 1], j)
  }

  /** From a to b flow j is in the dropping state, and no call empties its queue by discarding. */
  ghost predicate Dropping(states: seq<Sched>, ops: seq<Op>, j: nat, a: nat, b: nat)
    requires a <= b <= |ops| < |states|
  {
    && (forall n :: a <= n <= b ==> j < |states[n].flows| && states[n].flows[j].codel.dropping)
    && (forall n :: a <= n < b && Calls(states[n], ops[n], j) && states[n].flows[j].queue != [] ==>
          TakenBy(states[n], ops[n], j).out.Some?)
  }

  /** One call in the dropping state that stays in it. */
  lemma DroppingCall(t: Taken, v: Codel, q: seq<Frame>, log: seq<Look>, now: nat)
    requires CallLaw(t, v, q, log, now) && v.dropping && t.codel.dropping && (q != [] ==> t.out.Some?)
    ensures var n := |t.dropped|;
            && t.codel.count == v.count + n && t.codel.dropNext == Due(v.dropNext, v.count, n)
            && (forall k :: 0 <= k < n ==> now > Due(v.dropNext, v.count, k))
            && (q != [] ==> now <= Due(v.dropNext, v.count, n))
  {
    hide Ripe, Tracks;
    forall k | 0 <= k < |t.dropped| ensures now > Due(v.dropNext, v.count, k) {
      assert Discarded(v.dropNext, v.count, q, log, now, k);
    }
  }

  /** The schedule of a dropping state: after N discards the next is due at the N-th time, each
      time following the one before by the interval divided by the number of discards. */
  lemma {:induction false} OnSchedule(states: seq<Sched>, ops: seq<Op>, flows: nat, j: nat, a: nat, b: nat)
    requires FullRun(states, ops, flows) && j < flows && a <= b <= |ops| < |states|
    requires Dropping(states, ops, j, a, b)
    ensures var v, w, n := states[a].flows[j].codel, states[b].flows[j].codel,
                           Discards(states, ops, j, a, b);
            w.count == v.count + n && w.dropNext == Due(v.dropNext, v.count, n)
    decreases b - a
  {
    hide *;
    DroppingUpTo(states, ops, j, a, b, b);
    if a == b {
      var v := states[a].flows[j].codel;
      NoDiscards(states, ops, j, a, v.dropNext, v.count);
    } else {
      DroppingUpTo(states, ops, j, a, b, b - 1);
      OnSchedule(states, ops, flows, j, a, b - 1);
      DroppingStep(states, ops, flows, j, a, b, b - 1);
      var v, done, d := states[a].flows[j].codel, Discards(states, ops, j, a, b - 1),
                        OpDiscards(states[b - 1], ops[b - 1], j);
      DueAdds(v.dropNext, v.count, done, d);
      assert Discards(states, ops, j, a, b) == done + d by { DiscardsNext(states, ops, j, a, b); }
    }
  }

  lemma NoDiscards(states: seq<Sched>, ops: seq<Op>, j: nat, a: nat, next: nat, count: nat)
    requires a <= |ops| < |states|
    ensures Discards(states, ops, j, a, a) == 0 && Due(next, count, 0) == next
  {
  }

  lemma DiscardsNext(states: seq<Sched>, ops: seq<Op>, j: nat, a: nat, b: nat)
    requires a < b <= |ops| < |states|
    ensures Discards(states, ops, j, a, b)
         == Discards(states, ops, j, a, b - 1) + OpDiscards(states[b - 1], ops[b - 1], j)
  {
  }

  lemma DroppingUpTo(states: seq<Sched>, ops: seq<Op>, j: nat, a: nat, b: nat, n: nat)
    requires a <= n <= b <= |ops| < |states| && Dropping(states, ops, j, a, b)
    ensures Dropping(states, ops, j, a, n) && j < |states[a].flows| && j < |states[n].flows|
  {
    hide TakenBy, Calls;
  }

  lemma DroppingStep(states: seq<Sched>, ops: seq<Op>, flows: nat, j: nat, a: nat, b: nat, n: nat)
    requires FullRun(states, ops, flows) && j < flows && a <= n < b <= |ops| < |states|
    requires Dropping(states, ops, j, a, b)
    ensures var v, w, d := states[n].flows[j].codel, states[n + 1].flows[j].codel,
                           OpDiscards(states[n], ops[n], j);
            && w.count == v.count + d && w.dropNext == Due(v.dropNext, v.count, d)
            && (Calls(states[n], ops[n], j) ==>
                  && (forall k :: 0 <= k < d ==> ops[n].now > Due(v.dropNext, v.count, k))
                  && (states[n].flows[j].queue != [] ==> ops[n].now <= Due(v.dropNext, v.count, d)))
  {
    var s, op := states[n], ops[n];
    StepFifo(s, op, j);
    if Calls(s, op, j) {
      RunLaw(states, ops, flows, j, n);
      hide CanStep, Apply, TakenBy, CallLaw;
      DroppingCall(TakenBy(s, op, j), s.flows[j].codel, s.flows[j].queue, Log(states, ops, j, n), op.now);
    }
  }

  /** And the discards come exactly on time: those of a call are the ones whose times have passed
      by its clock and that were not made before. */
  lemma OnTime(states: seq<Sched>, ops: seq<Op>, flows: nat, j: nat, a: nat, b: nat, n: nat, k: nat)
    requires FullRun(states, ops, flows) && j < flows && a <= n < b <= |ops| < |states|
    requires Dropping(states, ops, j, a, b)
    requires Calls(states[n], ops[n], j) && states[n].flows[j].queue != []
    ensures var v, done := states[a].flows[j].codel, Discards(states, ops, j, a, n);
            var d := OpDiscards(states[n], ops[n], j);
            && (done <= k < done + d ==> ops[n].now > Due(v.dropNext, v.count, k))
            && (done + d <= k ==> ops[n].now <= Due(v.dropNext, v.count, k))
  {
    hide *;
    DroppingUpTo(states, ops, j, a, b, n);
    OnSchedule(states, ops, flows, j, a, n);
    DroppingStep(states, ops, flows, j, a, b, n);
    var v, w, done := states[a].flows[j].codel, states[n].flows[j].codel, Discards(states, ops, j, a, n);
    var d := OpDiscards(states[n], ops[n], j);
    if done <= k {
      DueAdds(v.dropNext, v.count, done, k - done);
      if done + d <= k { DueGrows(w.dropNext, w.count, d, k - done); }
    }
  }

  // --------------------------------------------------------------------------------- every frame

  function Lengths(s: Sched): seq<int> {
    seq(|s.flows|, j requires 0 <= j < |s.flows| => |s.flows[j].queue|)
  }

  /** The frames queued in all flows. */
  function Queued(s: Sched): int {
    Sum(Lengths(s))
  }

  /** One queue has changed. */
  lemma QueuedUpdate(s: Sched, s': Sched, i: nat)
    requires i < |s.flows| == |s'.flows|
    requires forall j :: 0 <= j < |s.flows| && j != i ==> s'.flows[j].queue == s.flows[j].queue
    ensures Queued(s') == Queued(s) - |s.flows[i].queue| + |s'.flows[i].queue|
  {
    SumUpdate(Lengths(s), i, |s'.flows[i].queue|);
    assert Lengths(s') == Lengths(s)[i := |s'.flows[i].queue|];
  }

  /** Frames joining and frames sent in one operation. */
  function Joins(op: Op): nat { if op.Enqueue? then 1 else 0 }

  ghost function Sends(s: Sched, op: Op): nat
    requires CanStep(s, op)
  {
    if op.Turn? && TakeTurn(s, op.now).turn.Sent? then 1 else 0
  }

  lemma AppendCount(s: Sched, i: nat, f: Frame)
    requires Inv(s) && i < |s.flows|
    ensures Queued(Append(s, i, f)) == Queued(s) + 1 && Append(s, i, f).dropped == s.dropped
  {
    QueuedUpdate(s, Append(s, i, f), i);
  }

  lemma DropCount(s: Sched, k: nat)
    requires Inv(s) && s.flows != [] && k <= |s.flows[Largest(s.backlogs)].queue|
    ensures Queued(DropHeads(s, k)) + DropHeads(s, k).dropped == Queued(s) + s.dropped
  {
    hide Largest;
    QueuedUpdate(s, DropHeads(s, k), Largest(s.backlogs));
  }

  lemma TurnCount(s: Sched, op: Op)
    requires CanStep(s, op) && op.Turn?
    ensures Queued(Apply(s, op)) + Apply(s, op).dropped + Sends(s, op) == Queued(s) + s.dropped
  {
    if HeadFlow(s).Some? {
      var i := HeadFlow(s).value;
      HeadListed(s, i);
      CodelConserves(s.flows[i].queue, s.flows[i].codel, op.now);
      hide CodelDequeue, Inv, Queued;
      QueuedUpdate(s, Apply(s, op), i);
    }
  }

  lemma StepCount(s: Sched, op: Op)
    requires CanStep(s, op)
    ensures Queued(Apply(s, op)) + Apply(s, op).dropped + Sends(s, op)
         == Queued(s) + s.dropped + Joins(op)
  {
    match op
    case Enqueue(i, f, k) =>
      AppendKeeps(s, i, f);
      AppendCount(s, i, f);
      var t := Append(s, i, f);
      hide Inv, Queued, Append, DropHeads;
      if OverLimit(t, i) { DropCount(t, k); }
    case PeekHead =>
      PeekFlows(s);
      assert Lengths(Peek(s)) == Lengths(s);
    case Turn(now) => TurnCount(s, op);
  }

  function AllJoined(ops: seq<Op>, n: nat): nat
    requires n <= |ops|
  {
    if n == 0 then 0 else AllJoined(ops, n - 1) + Joins(ops[n - 1])
  }

  ghost function AllSent(states: seq<Sched>, ops: seq<Op>, n: nat): nat
    requires IsRun(states, ops) && n <= |ops|
  {
    if n == 0 then 0 else AllSent(states, ops, n - 1) + Sends(states[n - 1], ops[n - 1])
  }

  /** The count of drops is right: in every run, every frame ever enqueued was sent, is counted as
      dropped, or is still queued. */
  lemma {:induction false} EveryFrameCounted(states: seq<Sched>, ops: seq<Op>, flows: nat, n: nat)
    requires FullRun(states, ops, flows) && n <= |ops|
    ensures AllJoined(ops, n) == AllSent(states, ops, n) + states[n].dropped + Queued(states[n])
  {
    if n == 0 {
      SumZero(Lengths(states[0]));
    } else {
      EveryFrameCounted(states, ops, flows, n - 1);
      StepCount(states[n - 1], ops[n - 1]);
      hide CanStep, Apply, Queued, Sends;
    }
  }
}
