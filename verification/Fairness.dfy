/** Whole runs of the FQ-CoDel scheduler: its invariant, and the fairness of its deficit
    round robin (picoquic/fqCoDel.c). */
module Fairness {

  import opened Varint
  import opened FqCodel

  /** An operation; a call of fqcodel_dequeue is a series of turns. */
  datatype Op =
    | Enqueue(flow: nat, frame: Frame, drops: nat) // ... and `drops` frames if over the limit
    | PeekHead
    | Turn(now: nat)

  ghost predicate CanStep(s: Sched, op: Op) {
    && Inv(s)
    && match op
       case Enqueue(i, f, k) =>
         && i < |s.flows| <= QUEUE_SIZE
         && var t := Append(s, i, f);
            t.listed > 0 && (OverLimit(t, i) ==> 1 <= k <= |t.flows[Largest(t.backlogs)].queue|)
       case PeekHead => true
       case Turn(now) => true
  }

  ghost function Apply(s: Sched, op: Op): Sched
    requires CanStep(s, op)
  {
    match op
    case Enqueue(i, f, k) =>
      var t := Append(s, i, f);
      if OverLimit(t, i) then DropHeads(t, k) else t
    case PeekHead => Peek(s)
    case Turn(now) => TakeTurn(s, now).sched
  }

  lemma StepKeeps(s: Sched, op: Op)
    requires CanStep(s, op)
    ensures Inv(Apply(s, op))
  {
    match op
    case Enqueue(i, f, k) =>
      AppendKeeps(s, i, f);
      var t := Append(s, i, f);
      if OverLimit(t, i) { DropKeeps(t, k); }
    case PeekHead => PeekKeeps(s);
    case Turn(now) => TurnKeeps(s, now);
  }

  ghost predicate IsRun(states: seq<Sched>, ops: seq<Op>) {
    && |states| == |ops| + 1
    && forall i :: 0 <= i < |ops| ==>
         CanStep(states[i], ops[i]) && states[i + 1] == Apply(states[i], ops[i])
  }

  /** From an empty scheduler, every mix of operations keeps the books and the lists. */
  lemma {:induction false} RunKeeps(states: seq<Sched>, ops: seq<Op>, n: nat, flows: nat)
    requires IsRun(states, ops) && states[0] == Init(flows) && n < |states|
    ensures Inv(states[n])
    decreases n
  {
    if n == 0 {
      SumZero(states[0].backlogs);
    } else {
      RunKeeps(states, ops, n - 1, flows);
      StepKeeps(states[n - 1], ops[n - 1]);
    }
  }

  /** Enqueueing is always possible: whenever it takes a flow over the limit, there is a
      frame to drop. */
  lemma CanAlwaysEnqueue(s: Sched, i: nat, f: Frame)
    requires Inv(s) && i < |s.flows| <= QUEUE_SIZE
    ensures CanStep(s, Enqueue(i, f, 1))
  {
    AppendKeeps(s, i, f);
    var t := Append(s, i, f);
    if OverLimit(t, i) { DropIsSafe(t, i); }
  }

  // -------------------------------------------------------------------------------- credits

  /** No queued frame is larger than m. */
  ghost predicate Small(s: Sched, m: nat) {
    forall i, j :: 0 <= i < |s.flows| && 0 <= j < |s.flows[i].queue| ==>
      s.flows[i].queue[j].bytes <= m
  }

  /** The credits of listed flows stay between 1 - m and one quantum. */
  ghost predicate CreditOk(s: Sched, m: nat) {
    forall i: nat :: IsListed(s, i) && i < |s.flows| ==> 1 - m <= s.flows[i].credits <= QUANTUM
  }

  lemma AppendCredits(s: Sched, i: nat, f: Frame, m: nat)
    requires Inv(s) && i < |s.flows| && Small(s, m) && CreditOk(s, m) && f.bytes <= m
    ensures Small(Append(s, i, f), m) && CreditOk(Append(s, i, f), m)
  {
    var t := Append(s, i, f);
    forall j: nat | IsListed(t, j) && j < |t.flows| ensures 1 - m <= t.flows[j].credits <= QUANTUM {
      assert j != i ==> IsListed(s, j);
    }
  }

  lemma DropCredits(s: Sched, k: nat, m: nat)
    requires Inv(s) && s.flows != [] && k <= |s.flows[Largest(s.backlogs)].queue|
    requires Small(s, m) && CreditOk(s, m)
    ensures Small(DropHeads(s, k), m) && CreditOk(DropHeads(s, k), m)
  {
    var t := DropHeads(s, k);
    assert forall j: nat :: IsListed(t, j) <==> IsListed(s, j);
  }

  lemma EnqueueCredits(s: Sched, i: nat, f: Frame, k: nat, m: nat)
    requires CanStep(s, Enqueue(i, f, k)) && Small(s, m) && CreditOk(s, m) && f.bytes <= m
    ensures var s' := Apply(s, Enqueue(i, f, k)); Small(s', m) && CreditOk(s', m)
  {
    hide Small, CreditOk;
    AppendCredits(s, i, f, m);
    AppendKeeps(s, i, f);
    var t := Append(s, i, f);
    if OverLimit(t, i) { DropCredits(t, k, m); }
  }

  /** The quanta a flow is granted and the bytes it sends in one turn. */
  function Granted1(r: Result, j: nat): nat { if r.turn == Granted(j) then 1 else 0 }
  function Sent1(r: Result, j: nat): nat {
    if r.turn.Sent? && r.turn.flow == j then r.turn.frame.bytes else 0
  }

  /** One turn, seen from flow j: its credits change by what it is granted and what it
      sends. A quantum is granted only without credit, a frame sent only with credit. */
  lemma TurnEffect(s: Sched, now: nat, j: nat)
    requires Inv(s) && j < |s.flows|
    ensures var r := TakeTurn(s, now);
            && |r.sched.flows| == |s.flows|
            && r.sched.flows[j].credits
               == s.flows[j].credits + QUANTUM * Granted1(r, j) - Sent1(r, j)
            && (r.turn == Granted(j) ==> s.flows[j].credits <= 0)
            && (r.turn.Sent? && r.turn.flow == j ==> s.flows[j].credits > 0)
  {
    if HeadFlow(s).Some? {
      HeadListed(s, HeadFlow(s).value);
      hide CodelDequeue, Inv;
    }
  }

  lemma TurnListing(s: Sched, now: nat, j: nat)
    requires Inv(s)
    ensures IsListed(TakeTurn(s, now).sched, j) ==> IsListed(s, j)
  {
    if HeadFlow(s).Some? {
      HeadListed(s, HeadFlow(s).value);
      hide CodelDequeue, Inv;
      assert s.newFlows != [] ==> s.newFlows == [s.newFlows[0]] + s.newFlows[1..];
      assert s.oldFlows != [] ==> s.oldFlows == [s.oldFlows[0]] + s.oldFlows[1..];
    }
  }

  ghost predicate SmallQueue(q: seq<Frame>, m: nat) {
    forall j :: 0 <= j < |q| ==> q[j].bytes <= m
  }

  /** A turn keeps the bounds on frames and credits. */
  lemma TurnCredits(s: Sched, now: nat, m: nat)
    requires Inv(s) && Small(s, m) && CreditOk(s, m)
    ensures var s' := TakeTurn(s, now).sched; Small(s', m) && CreditOk(s', m)
  {
    hide TakeTurn, Inv;
    var r := TakeTurn(s, now);
    forall j: nat | j < |r.sched.flows| && |r.sched.flows| == |s.flows|
      ensures SmallQueue(r.sched.flows[j].queue, m)
      ensures IsListed(r.sched, j) ==> 1 - m <= r.sched.flows[j].credits <= QUANTUM
    {
      assert SmallQueue(s.flows[j].queue, m);
      var n := TurnTakesHead(s, now, j);
      TurnEffect(s, now, j);
      TurnListing(s, now, j);
    }
    if |s.flows| > 0 { TurnEffect(s, now, 0); } else { NoFlows(s, now); }
    assert forall i, j :: 0 <= i < |r.sched.flows| && 0 <= j < |r.sched.flows[i].queue| ==>
      SmallQueue(r.sched.flows[i].queue, m) && r.sched.flows[i].queue[j].bytes <= m;
  }

  lemma NoFlows(s: Sched, now: nat)
    requires Inv(s) && s.flows == []
    ensures TakeTurn(s, now).sched.flows == []
  {
    if HeadFlow(s).Some? { HeadListed(s, HeadFlow(s).value); }
  }

  lemma PeekCredits(s: Sched, m: nat)
    requires Inv(s) && Small(s, m) && CreditOk(s, m)
    ensures Small(Peek(s), m) && CreditOk(Peek(s), m)
  {
    if HeadFlow(s).Some? { MoveKeeps(s); }
  }

  /** The size of the frame an operation adds. */
  ghost predicate SmallOp(op: Op, m: nat) {
    op.Enqueue? ==> op.frame.bytes <= m
  }

  lemma StepCredits(s: Sched, op: Op, m: nat)
    requires CanStep(s, op) && SmallOp(op, m) && Small(s, m) && CreditOk(s, m)
    ensures Small(Apply(s, op), m) && CreditOk(Apply(s, op), m)
  {
    match op
    case Enqueue(i, f, k) => EnqueueCredits(s, i, f, k, m);
    case PeekHead => PeekCredits(s, m);
    case Turn(now) => TurnCredits(s, now, m);
  }

  // --------------------------------------------------------------------------- round robin

  /** f comes before g. */
  ghost predicate Before(l: seq<nat>, f: nat, g: nat) {
    exists a, b :: 0 <= a < b < |l| && l[a] == f && l[b] == g
  }

  lemma OneOrder(l: seq<nat>, f: nat, g: nat)
    requires Distinct(l) && f in l && g in l && f != g
    ensures Before(l, f, g) <==> !Before(l, g, f)
  {
  }

  /** Dropping the first, or adding one at the end, does not change the order of others. */
  lemma OrderInTail(l: seq<nat>, f: nat, g: nat)
    requires l != [] && l[0] != f && l[0] != g
    ensures Before(l, f, g) <==> Before(l[1..], f, g)
  {
    var t := l[1..];
    if Before(l, f, g) {
      var a, b :| 0 <= a < b < |l| && l[a] == f && l[b] == g;
      assert t[a - 1] == f && t[b - 1] == g;
    }
    if Before(t, f, g) {
      var a, b :| 0 <= a < b < |t| && t[a] == f && t[b] == g;
      assert l[a + 1] == f && l[b + 1] == g;
    }
  }

  lemma OrderInSnoc(l: seq<nat>, h: nat, f: nat, g: nat)
    requires h != f && h != g
    ensures Before(l, f, g) <==> Before(l + [h], f, g)
  {
    var t := l + [h];
    if Before(l, f, g) {
      var a, b :| 0 <= a < b < |l| && l[a] == f && l[b] == g;
      assert t[a] == f && t[b] == g;
    }
    if Before(t, f, g) {
      var a, b :| 0 <= a < b < |t| && t[a] == f && t[b] == g;
      assert l[a] == f && l[b] == g;
    }
  }

  /** Moving the first to the end puts it after all others. */
  lemma OrderFlips(l: seq<nat>, g: nat)
    requires Distinct(l) && l != [] && g in l && g != l[0]
    ensures Before(l, l[0], g) && Before(l[1..] + [l[0]], g, l[0])
  {
    var b :| 0 <= b < |l| && l[b] == g;
    var t := l[1..] + [l[0]];
    assert t[b - 1] == g && t[|t| - 1] == l[0];
  }

  /** How the list of old flows may change in one operation: not at all, a flow added at the
      end, the first one removed, or the first one moved to the end. */
  datatype Shift = Same | Added(h: nat) | Removed | Rotated

  ghost predicate Shifts(l: seq<nat>, l': seq<nat>, how: Shift) {
    match how
    case Same => l' == l
    case Added(h) => h !in l && l' == l + [h]
    case Removed => l != [] && l' == l[1..]
    case Rotated => l != [] && l' == l[1..] + [l[0]]
  }

  /** A flow among the old ones, before and after, that is not found empty: the order it has
      with another such flow changes only by a rotation that grants one of them a quantum. */
  lemma ShiftOrder(l: seq<nat>, l': seq<nat>, how: Shift, f: nat, g: nat)
    requires Distinct(l) && Distinct(l') && Shifts(l, l', how)
    requires f in l && g in l && f in l' && g in l' && f != g
    ensures !how.Rotated? || (l[0] != f && l[0] != g) ==>
              (Before(l', f, g) <==> Before(l, f, g))
    ensures how.Rotated? && l[0] == f ==> Before(l, f, g) && !Before(l', f, g)
    ensures how.Rotated? && l[0] == g ==> !Before(l, f, g) && Before(l', f, g)
  {
    hide Before;
    match how
    case Same =>
    case Added(h) => OrderInSnoc(l, h, f, g);
    case Removed =>
      NotInTail(l);
      OrderInTail(l, f, g);
    case Rotated =>
      if l[0] != f && l[0] != g {
        OrderInTail(l, f, g);
        OrderInSnoc(l[1..], l[0], f, g);
      } else {
        OrderFlips(l, if l[0] == f then g else f);
        OneOrder(l, f, g);
        OneOrder(l', f, g);
      }
  }

  lemma NotInTail(l: seq<nat>)
    requires Distinct(l) && l != []
    ensures l[0] !in l[1..]
  {
    forall k | 0 <= k < |l[1..]| ensures l[1..][k] != l[0] { assert l[0] != l[k + 1]; }
  }

  /** The old flows after one turn. */
  lemma TurnShift(s: Sched, now: nat) returns (how: Shift)
    requires Inv(s)
    ensures var r := TakeTurn(s, now);
            && Shifts(s.oldFlows, r.sched.oldFlows, how)
            && (how.Rotated? ==> r.turn == Granted(s.oldFlows[0]))
            && (forall h :: h in s.oldFlows && r.turn == Granted(h) ==>
                  how.Rotated? && s.oldFlows[0] == h)
  {
    how := Same;
    if HeadFlow(s).Some? {
      var i := HeadFlow(s).value;
      HeadListed(s, i);
      NewNotOld(s);
      hide CodelDequeue, Inv;
      var r := TakeTurn(s, now);
      if s.newFlows != [] {
        if r.turn.Granted? || r.turn.Moved? { how := Added(i); }
      } else if r.turn.Granted? {
        how := Rotated;
      } else if r.turn.Unlisted? {
        how := Removed;
      }
    }
  }

  /** The first new flow is not among the old ones. */
  lemma NewNotOld(s: Sched)
    requires Inv(s)
    ensures s.newFlows != [] ==> s.newFlows[0] !in s.oldFlows
    ensures Distinct(s.oldFlows)
  {
    var l := s.newFlows + s.oldFlows;
    assert forall k :: 0 <= k < |s.oldFlows| ==> l[|s.newFlows| + k] == s.oldFlows[k];
    if s.newFlows != [] {
      forall k | 0 <= k < |s.oldFlows| ensures s.oldFlows[k] != s.newFlows[0] {
        assert l[0] != l[|s.newFlows| + k];
      }
    }
  }

  /** The flow is among the old ones, and not found empty by a peek. */
  ghost predicate Busy(s: Sched, op: Op, f: nat) {
    && f in s.oldFlows
    && !(op.PeekHead? && HeadFlow(s) == Some(f) && f < |s.flows| && s.flows[f].queue == [])
  }

  /** Quanta granted to, and bytes sent for, flow f in one operation. */
  ghost function OpGrants(s: Sched, op: Op, f: nat): nat
    requires CanStep(s, op)
  {
    if op.Turn? then Granted1(TakeTurn(s, op.now), f) else 0
  }

  ghost function OpSent(s: Sched, op: Op, f: nat): nat
    requires CanStep(s, op)
  {
    if op.Turn? then Sent1(TakeTurn(s, op.now), f) else 0
  }

  lemma PeekShift(s: Sched) returns (how: Shift)
    requires Inv(s)
    ensures Shifts(s.oldFlows, Peek(s).oldFlows, how)
    ensures how.Rotated? ==> var h := s.oldFlows[0];
              HeadFlow(s) == Some(h) && h < |s.flows| && s.flows[h].queue == []
  {
    how := Same;
    if HeadFlow(s).Some? {
      var i := HeadFlow(s).value;
      HeadListed(s, i);
      NewNotOld(s);
      if s.flows[i].queue == [] {
        how := if s.newFlows != [] then Added(i) else Rotated;
      }
    }
  }

  /** One operation, seen from two busy flows: who comes first changes exactly when one of
      them is granted a quantum, and it is the one that came first. */
  lemma StepOrder(s: Sched, op: Op, f: nat, g: nat)
    requires CanStep(s, op) && Busy(s, op, f) && Busy(s, op, g) && f != g
    requires f in Apply(s, op).oldFlows && g in Apply(s, op).oldFlows
    ensures var s' := Apply(s, op);
            var df, dg := OpGrants(s, op, f), OpGrants(s, op, g);
            && df + (if Before(s.oldFlows, f, g) then 0 else 1)
               == dg + (if Before(s'.oldFlows, f, g) then 0 else 1)
  {
    StepKeeps(s, op);
    var s' := Apply(s, op);
    NewNotOld(s);
    NewNotOld(s');
    var how := Same;
    match op {
      case Enqueue(i, fr, k) =>
      case PeekHead => how := PeekShift(s);
      case Turn(now) => how := TurnShift(s, now);
    }
    hide Inv, Before, Apply, Peek, TakeTurn, CanStep;
    ShiftOrder(s.oldFlows, s'.oldFlows, how, f, g);
  }

  /** One operation, seen from one busy flow: the change of its credits. */
  lemma StepCredit(s: Sched, op: Op, f: nat)
    requires CanStep(s, op) && f in s.oldFlows
    ensures f < |s.flows| == |Apply(s, op).flows|
    ensures Apply(s, op).flows[f].credits
         == s.flows[f].credits + QUANTUM * OpGrants(s, op, f) - OpSent(s, op, f)
  {
    assert IsListed(s, f);
    match op
    case Enqueue(i, fr, k) => hide Inv;
    case PeekHead => hide Inv;
    case Turn(now) => TurnEffect(s, now, f);
  }

  // --------------------------------------------------------------------------- whole runs

  /** Flow f is busy throughout: among the old flows in every state, and never found empty. */
  ghost predicate AlwaysBusy(states: seq<Sched>, ops: seq<Op>, f: nat) {
    && (forall i :: 0 <= i < |states| ==> f in states[i].oldFlows)
    && (forall i :: 0 <= i < |ops| && i < |states| ==> Busy(states[i], ops[i], f))
  }

  /** What flow f is granted and sends in the first n operations. */
  ghost function Grants(states: seq<Sched>, ops: seq<Op>, f: nat, n: nat): nat
    requires IsRun(states, ops) && n <= |ops|
  {
    if n == 0 then 0
    else Grants(states, ops, f, n - 1) + OpGrants(states[n - 1], ops[n - 1], f)
  }

  ghost function SentBytes(states: seq<Sched>, ops: seq<Op>, f: nat, n: nat): nat
    requires IsRun(states, ops) && n <= |ops|
  {
    if n == 0 then 0
    else SentBytes(states, ops, f, n - 1) + OpSent(states[n - 1], ops[n - 1], f)
  }

  /** A run from a state with sound books, frames of at most m bytes and bounded credits. */
  ghost predicate BoundedRun(states: seq<Sched>, ops: seq<Op>, m: nat) {
    && IsRun(states, ops) && Inv(states[0]) && Small(states[0], m) && CreditOk(states[0], m)
    && forall i :: 0 <= i < |ops| ==> SmallOp(ops[i], m)
  }

  lemma {:induction false} RunBounded(states: seq<Sched>, ops: seq<Op>, m: nat, n: nat)
    requires BoundedRun(states, ops, m) && n < |states|
    ensures Inv(states[n]) && Small(states[n], m) && CreditOk(states[n], m)
    decreases n
  {
    hide Inv, Small, CreditOk;
    if n > 0 {
      RunBounded(states, ops, m, n - 1);
      StepKeeps(states[n - 1], ops[n - 1]);
      StepCredits(states[n - 1], ops[n - 1], m);
    }
  }

  /** The credits of a busy flow account for every quantum granted and every byte sent. */
  lemma {:induction false} CreditLaw(states: seq<Sched>, ops: seq<Op>, f: nat, n: nat)
    requires IsRun(states, ops) && n <= |ops| && AlwaysBusy(states, ops, f)
    requires f < |states[0].flows|
    ensures f < |states[n].flows|
    ensures states[n].flows[f].credits + SentBytes(states, ops, f, n)
         == states[0].flows[f].credits + QUANTUM * Grants(states, ops, f, n)
    decreases n
  {
    hide CanStep, Apply, OpGrants, OpSent;
    if n > 0 {
      CreditLaw(states, ops, f, n - 1);
      StepCredit(states[n - 1], ops[n - 1], f);
    }
  }

  /** Of two busy flows, the one that came first is ahead by one quantum exactly while it
      comes second. */
  lemma {:induction false} GrantsAlternate(states: seq<Sched>, ops: seq<Op>, f: nat, g: nat, n: nat)
    requires IsRun(states, ops) && n <= |ops| && f != g
    requires AlwaysBusy(states, ops, f) && AlwaysBusy(states, ops, g)
    requires Before(states[0].oldFlows, f, g)
    ensures Grants(states, ops, f, n)
         == Grants(states, ops, g, n) + (if Before(states[n].oldFlows, f, g) then 0 else 1)
    decreases n
  {
    hide CanStep, Apply, OpGrants, Before;
    if n > 0 {
      GrantsAlternate(states, ops, f, g, n - 1);
      assert Busy(states[n - 1], ops[n - 1], f) && Busy(states[n - 1], ops[n - 1], g);
      assert f in states[n].oldFlows && g in states[n].oldFlows;
      StepOrder(states[n - 1], ops[n - 1], f, g);
    }
  }

  /** Fairness: over any stretch of any run, two flows that stay busy are granted the same
      number of quanta give or take one, their credits stay between 1 - m and one quantum,
      and the bytes sent for them differ by at most three quanta and two frames. */
  lemma Fair(states: seq<Sched>, ops: seq<Op>, m: nat, f: nat, g: nat, n: nat)
    requires BoundedRun(states, ops, m) && n <= |ops| && f != g
    requires AlwaysBusy(states, ops, f) && AlwaysBusy(states, ops, g)
    ensures f < |states[n].flows| && 1 - m <= states[n].flows[f].credits <= QUANTUM
    ensures -1 <= Grants(states, ops, f, n) - Grants(states, ops, g, n) <= 1
    ensures SentBytes(states, ops, f, n) - SentBytes(states, ops, g, n) <= 3 * QUANTUM + 2 * m
    ensures SentBytes(states, ops, g, n) - SentBytes(states, ops, f, n) <= 3 * QUANTUM + 2 * m
  {
    BusyBounds(states, ops, m, f, 0);
    BusyBounds(states, ops, m, f, n);
    BusyBounds(states, ops, m, g, 0);
    BusyBounds(states, ops, m, g, n);
    hide Grants, SentBytes;
    CreditLaw(states, ops, f, n);
    CreditLaw(states, ops, g, n);
    NewNotOld(states[0]);
    OneOrder(states[0].oldFlows, f, g);
    if Before(states[0].oldFlows, f, g) {
      GrantsAlternate(states, ops, f, g, n);
    } else {
      GrantsAlternate(states, ops, g, f, n);
    }
  }

  /** The empty scheduler is such a state, and so is every later one: fairness holds over any
      stretch of any run from the start. */
  lemma StretchBounded(states: seq<Sched>, ops: seq<Op>, flows: nat, m: nat, k: nat)
    requires IsRun(states, ops) && states[0] == Init(flows) && k <= |ops|
    requires forall i :: 0 <= i < |ops| ==> SmallOp(ops[i], m)
    ensures BoundedRun(states[k..], ops[k..], m)
  {
    RunKeeps(states, ops, 0, flows);
    RunBounded(states, ops, m, k);
    hide Inv, Apply, CanStep;
    var later, rest := states[k..], ops[k..];
    forall i | 0 <= i < |rest|
      ensures CanStep(later[i], rest[i]) && later[i + 1] == Apply(later[i], rest[i])
    {
      assert CanStep(states[k + i], ops[k + i]) && states[k + i + 1] == Apply(states[k + i], ops[k + i]);
    }
  }

  lemma BusyBounds(states: seq<Sched>, ops: seq<Op>, m: nat, f: nat, n: nat)
    requires BoundedRun(states, ops, m) && n < |states| && AlwaysBusy(states, ops, f)
    ensures f < |states[n].flows| && 1 - m <= states[n].flows[f].credits <= QUANTUM
  {
    RunBounded(states, ops, m, n);
    assert IsListed(states[n], f);
  }
}
