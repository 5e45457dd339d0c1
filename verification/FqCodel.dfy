/** The FQ-CoDel scheduler (picoquic/fqCoDel.c): deficit round robin over two lists of flows,
    each flow being a queue from which CoDel discards frames that have waited too long. */
module FqCodel {

  import opened Varint

  const QUANTUM := 1403
  const TARGET := 5000
  const INTERVAL := 100000
  const QUEUE_SIZE := 10000000

  datatype Frame = Frame(bytes: nat, enqueued: nat)

  /** CoDel's memory of a flow. */
  datatype Codel = Codel(count: nat, dropping: bool, firstAbove: nat, dropNext: nat)

  datatype Flow = Flow(queue: seq<Frame>, credits: int, codel: Codel)

  function Bytes(q: seq<Frame>): nat {
    if q == [] then 0 else q[0].bytes + Bytes(q[1..])
  }

  lemma {:induction false} BytesAppend(p: seq<Frame>, q: seq<Frame>)
    ensures Bytes(p + q) == Bytes(p) + Bytes(q)
    decreases |p|
  {
    if p == [] {
      assert p + q == q;
    } else {
      BytesAppend(p[1..], q);
      assert (p + q)[1..] == p[1..] + q;
    }
  }

  // ---------------------------------------------------------------------------------- CoDel

  /** How long a frame has waited, on 64 bits. */
  function Delay(f: Frame, now: nat): nat {
    (now - f.enqueued) % U64
  }

  datatype Verdict = Verdict(codel: Codel, drop: bool)

  /** codel_should_drop: a frame may go once the delay has stayed above the target for an
      interval. */
  function ShouldDrop(v: Codel, f: Frame, now: nat): Verdict {
    if Delay(f, now) < TARGET then Verdict(v.(firstAbove := 0), false)
    else if v.firstAbove == 0 then Verdict(v.(firstAbove := now + INTERVAL), false)
    else Verdict(v, now > v.firstAbove)
  }

  /** What one call of codel_dequeue takes from a flow. */
  datatype Taken = Taken(queue: seq<Frame>, codel: Codel, dropped: seq<Frame>, out: Option<Frame>)

  /** The loop in the dropping state: frames go until one may stay, its time has not come, or
      none is left. `f` is the frame in hand. */
  function DropWhile(q: seq<Frame>, v: Codel, f: Frame, now: nat): Taken
    decreases |q|
  {
    if !(now > v.dropNext && v.dropping) then Taken(q, v, [], Some(f))
    else
      var v1 := v.(count := v.count + 1);
      if q == [] then Taken([], v1, [f], None)
      else
        var t := DropWhile(q[1..], AfterDrop(v1, q[0], now), q[0], now);
        t.(dropped := [f] + t.dropped)
  }

  /** Having dropped a frame, with the next one in hand: the next drop is scheduled, or the
      dropping state ends. */
  function AfterDrop(v: Codel, f: Frame, now: nat): (r: Codel)
    requires v.count > 0
    ensures r.dropping && v.dropping ==> Delay(f, now) >= TARGET
  {
    var d := ShouldDrop(v, f, now);
    if d.drop then d.codel.(dropNext := d.codel.dropNext + INTERVAL / d.codel.count)
    else d.codel.(dropping := false)
  }

  /** The start of a dropping state, with frame f in hand. */
  function Entered(v: Codel, f: Frame, now: nat): Codel {
    var v2 := ShouldDrop(v, f, now).codel.(dropping := true);
    var count := if Delay(f, now) < INTERVAL && v2.count > 2 then v2.count - 2 else 1;
    v2.(count := count, dropNext := now + INTERVAL / count)
  }

  /** Entering the dropping state: one frame goes, and the next one is kept whatever it is. */
  function EnterDropping(q: seq<Frame>, v: Codel, f: Frame, now: nat): Taken {
    var v1 := v.(count := v.count + 1);
    if q == [] then Taken([], v1, [f], None)
    else Taken(q[1..], Entered(v1, q[0], now), [f], Some(q[0]))
  }

  /** codel_dequeue. */
  function CodelDequeue(q: seq<Frame>, v: Codel, now: nat): Taken {
    if q == [] then Taken([], v, [], None)
    else
      var f, d := q[0], ShouldDrop(v, q[0], now);
      if d.codel.dropping then
        if !d.drop then Taken(q[1..], d.codel.(dropping := false), [], Some(f))
        else DropWhile(q[1..], d.codel, f, now)
      else if d.drop then EnterDropping(q[1..], d.codel, f, now)
      else Taken(q[1..], d.codel, [], Some(f))
  }

  function OutSeq(o: Option<Frame>): seq<Frame> {
    match o
    case None => []
    case Some(f) => [f]
  }

  /** Every frame of `fs` has waited for at least the target delay. */
  ghost predicate Late(fs: seq<Frame>, now: nat) {
    forall i :: 0 <= i < |fs| ==> Delay(fs[i], now) >= TARGET
  }

  lemma {:induction false} DropWhileConserves(q: seq<Frame>, v: Codel, f: Frame, now: nat)
    requires v.dropping ==> Delay(f, now) >= TARGET
    ensures var t := DropWhile(q, v, f, now);
            && [f] + q == t.dropped + OutSeq(t.out) + t.queue
            && (t.out.None? ==> t.queue == []) && Late(t.dropped, now)
    decreases |q|
  {
    if now > v.dropNext && v.dropping && q != [] {
      var v1 := AfterDrop(v.(count := v.count + 1), q[0], now);
      assert [q[0]] + q[1..] == q;
      DropWhileConserves(q[1..], v1, q[0], now);
      var t := DropWhile(q[1..], v1, q[0], now);
      OneMore(f, t, now);
    }
  }

  lemma OneMore(f: Frame, t: Taken, now: nat)
    requires Late(t.dropped, now) && Delay(f, now) >= TARGET
    ensures [f] + (t.dropped + OutSeq(t.out) + t.queue)
         == ([f] + t.dropped) + OutSeq(t.out) + t.queue
    ensures Late([f] + t.dropped, now)
  {
  }

  lemma EnterConserves(q: seq<Frame>, v: Codel, f: Frame, now: nat)
    requires Delay(f, now) >= TARGET
    ensures var t := EnterDropping(q, v, f, now);
            && [f] + q == t.dropped + OutSeq(t.out) + t.queue
            && (t.out.None? ==> t.queue == []) && Late(t.dropped, now)
  {
    if q != [] { assert [q[0]] + q[1..] == q; }
  }

  /** CoDel takes frames off the head of the queue only: first those it discards, all of them
      late, then the one it hands out. It hands out nothing only when nothing is left. */
  lemma CodelConserves(q: seq<Frame>, v: Codel, now: nat)
    ensures var t := CodelDequeue(q, v, now);
            && q == t.dropped + OutSeq(t.out) + t.queue
            && (t.out.None? ==> t.queue == []) && Late(t.dropped, now)
  {
    if q != [] {
      assert [q[0]] + q[1..] == q;
      var d := ShouldDrop(v, q[0], now);
      if d.drop {
        assert Delay(q[0], now) >= TARGET;
        DropWhileConserves(q[1..], d.codel, q[0], now);
        EnterConserves(q[1..], d.codel, q[0], now);
        hide ShouldDrop, DropWhile, EnterDropping, Late;
      }
    }
  }

  // ------------------------------------------------------------------------- the scheduler

  /** `newFlows` and `oldFlows` hold indices into `flows`; `listed` is the program's own
      count of them. */
  datatype Sched = Sched(flows: seq<Flow>, backlogs: seq<int>, limit: int, dropped: nat,
                         newFlows: seq<nat>, oldFlows: seq<nat>, listed: nat)

  predicate IsListed(s: Sched, i: nat) {
    i in s.newFlows || i in s.oldFlows
  }

  function Sum(ns: seq<int>): int {
    if ns == [] then 0 else Sum(ns[..|ns| - 1]) + ns[|ns| - 1]
  }

  lemma {:induction false} SumUpdate(ns: seq<int>, i: nat, n: int)
    requires i < |ns|
    ensures Sum(ns[i := n]) == Sum(ns) - ns[i] + n
    decreases |ns|
  {
    var k := |ns| - 1;
    var t := ns[i := n];
    if i == k {
      assert t[..k] == ns[..k];
    } else {
      SumUpdate(ns[..k], i, n);
      assert t[..k] == ns[..k][i := n];
    }
  }

  ghost predicate Distinct(l: seq<nat>) {
    forall i, j :: 0 <= i < j < |l| ==> l[i] != l[j]
  }

  /** Every backlog is the byte count of its queue and `limit` is their sum; the two lists
      together name no flow twice, name every flow with queued frames, and `listed` is their
      length. */
  ghost predicate Accounts(s: Sched) {
    && |s.backlogs| == |s.flows|
    && (forall i :: 0 <= i < |s.flows| ==> s.backlogs[i] == Bytes(s.flows[i].queue))
    && s.limit == Sum(s.backlogs)
  }

  ghost predicate Lists(s: Sched) {
    && Distinct(s.newFlows + s.oldFlows) && s.listed == |s.newFlows| + |s.oldFlows|
    && (forall i: nat :: IsListed(s, i) ==> i < |s.flows|)
    && (forall i :: 0 <= i < |s.flows| && s.flows[i].queue != [] ==> IsListed(s, i))
  }

  ghost predicate Inv(s: Sched) {
    Accounts(s) && Lists(s)
  }

  const EMPTY := Flow([], 0, Codel(0, false, 0, 0))

  /** fqcodel_init, with any number of flows. */
  function Init(n: nat): Sched {
    Sched(seq(n, _ => EMPTY), seq(n, _ => 0), 0, 0, [], [], 0)
  }

  /** Flow i has queue `q` now; the accounts of the flow change by `bytes`. */
  function SetQueue(s: Sched, i: nat, q: seq<Frame>, codel: Codel, bytes: int): Sched
    requires i < |s.flows| && i < |s.backlogs|
  {
    s.(flows := s.flows[i := s.flows[i].(queue := q, codel := codel)],
       backlogs := s.backlogs[i := s.backlogs[i] + bytes], limit := s.limit + bytes)
  }

  lemma SetQueueAccounts(s: Sched, i: nat, q: seq<Frame>, codel: Codel, bytes: int)
    requires Accounts(s) && i < |s.flows| && Bytes(q) == Bytes(s.flows[i].queue) + bytes
    ensures Accounts(SetQueue(s, i, q, codel, bytes))
  {
    hide Bytes, Sum;
    SumUpdate(s.backlogs, i, s.backlogs[i] + bytes);
  }

  // -------------------------------------------------------------------------- one dequeue

  /** What one turn of the loop of fqcodel_dequeue did. */
  datatype Turn =
    | Idle                             // no flow is listed: NULL is returned
    | Granted(flow: nat)               // out of credit: one more quantum, to the old flows
    | Sent(flow: nat, frame: Frame)    // a frame is returned
    | Moved(flow: nat)                 // a new flow that is empty joins the old ones
    | Unlisted(flow: nat)              // an empty flow leaves the lists

  datatype Result = Result(sched: Sched, turn: Turn)

  /** peek_flow_queues and list_first_entry. */
  function HeadFlow(s: Sched): Option<nat> {
    if s.newFlows != [] then Some(s.newFlows[0])
    else if s.oldFlows != [] then Some(s.oldFlows[0])
    else None
  }

  /** The first flow goes to the tail of the old flows. */
  function MoveToOld(s: Sched): Sched
    requires HeadFlow(s).Some?
  {
    if s.newFlows != [] then
      s.(newFlows := s.newFlows[1..], oldFlows := s.oldFlows + [s.newFlows[0]])
    else s.(oldFlows := s.oldFlows[1..] + [s.oldFlows[0]])
  }

  /** The first flow leaves the lists. */
  function Unlist(s: Sched): Sched
    requires HeadFlow(s).Some? && s.listed > 0
  {
    if s.newFlows != [] then s.(newFlows := s.newFlows[1..], listed := s.listed - 1)
    else s.(oldFlows := s.oldFlows[1..], listed := s.listed - 1)
  }

  function AddCredits(s: Sched, i: nat, c: int): Sched
    requires i < |s.flows|
  {
    s.(flows := s.flows[i := s.flows[i].(credits := s.flows[i].credits + c)])
  }

  /** Flow i after codel_dequeue, with what dequeue_function took off the accounts. */
  function AfterCodel(s: Sched, i: nat, t: Taken): Sched
    requires i < |s.flows| && i < |s.backlogs|
  {
    SetQueue(s, i, t.queue, t.codel, 0 - (Bytes(t.dropped) + Bytes(OutSeq(t.out))))
      .(dropped := s.dropped + |t.dropped|)
  }

  /** One turn of the loop of fqcodel_dequeue. */
  function TakeTurn(s: Sched, now: nat): Result
    requires Inv(s)
  {
    match HeadFlow(s)
    case None => Result(s, Idle)
    case Some(i) =>
      assert IsListed(s, i);
      if s.flows[i].credits <= 0 then
        Result(MoveToOld(AddCredits(s, i, QUANTUM)), Granted(i))
      else
        var t := CodelDequeue(s.flows[i].queue, s.flows[i].codel, now);
        var s1 := AfterCodel(s, i, t);
        match t.out
        case Some(f) => Result(AddCredits(s1, i, 0 - f.bytes), Sent(i, f))
        case None =>
          if s.newFlows != [] && s.oldFlows != [] then Result(MoveToOld(s1), Moved(i))
          else Result(Unlist(s1), Unlisted(i))
  }

  lemma CodelBytes(q: seq<Frame>, v: Codel, now: nat)
    ensures var t := CodelDequeue(q, v, now);
            Bytes(t.queue) == Bytes(q) - (Bytes(t.dropped) + Bytes(OutSeq(t.out)))
  {
    hide CodelDequeue;
    CodelConserves(q, v, now);
    var t := CodelDequeue(q, v, now);
    BytesAppend(t.dropped + OutSeq(t.out), t.queue);
    BytesAppend(t.dropped, OutSeq(t.out));
  }

  lemma CreditsKeeps(s: Sched, i: nat, c: int)
    requires Inv(s) && i < |s.flows|
    ensures Inv(AddCredits(s, i, c))
  {
    var s' := AddCredits(s, i, c);
    assert forall j: nat :: IsListed(s', j) <==> IsListed(s, j);
  }

  /** Moving the first flow to the old ones lists the same flows. */
  lemma MoveKeeps(s: Sched)
    requires Inv(s) && HeadFlow(s).Some?
    ensures Inv(MoveToOld(s)) && forall j: nat :: IsListed(MoveToOld(s), j) <==> IsListed(s, j)
  {
    var s', l := MoveToOld(s), s.newFlows + s.oldFlows;
    var l' := s'.newFlows + s'.oldFlows;
    assert l == [l[0]] + l[1..];
    if s.newFlows != [] {
      assert s.newFlows == [s.newFlows[0]] + s.newFlows[1..];
      assert l' == l[1..] + [l[0]];
    } else {
      assert s.oldFlows == [s.oldFlows[0]] + s.oldFlows[1..];
      assert l' == l[1..] + [l[0]];
    }
    forall j: nat ensures IsListed(s', j) <==> IsListed(s, j) {
      assert IsListed(s, j) <==> j in l;
      assert IsListed(s', j) <==> j in l';
    }
  }

  /** Removing the first flow unlists it and no other. */
  lemma UnlistKeeps(s: Sched, i: nat)
    requires Inv(s) && HeadFlow(s) == Some(i) && i < |s.flows| && s.flows[i].queue == []
    ensures s.listed > 0 && Inv(Unlist(s))
    ensures forall j: nat :: IsListed(Unlist(s), j) <==> IsListed(s, j) && j != i
  {
    var s', l := Unlist(s), s.newFlows + s.oldFlows;
    var l' := s'.newFlows + s'.oldFlows;
    assert l == [i] + l[1..] && l' == l[1..];
    assert i !in l[1..] by {
      forall k | 0 <= k < |l[1..]| ensures l[1..][k] != i { assert l[0] != l[k + 1]; }
    }
    forall j: nat ensures IsListed(s', j) <==> IsListed(s, j) && j != i {
      assert IsListed(s, j) <==> j in l;
      assert IsListed(s', j) <==> j in l';
    }
  }

  lemma AfterCodelKeeps(s: Sched, i: nat, now: nat)
    requires Inv(s) && i < |s.flows| && IsListed(s, i)
    ensures var t := CodelDequeue(s.flows[i].queue, s.flows[i].codel, now);
            && Inv(AfterCodel(s, i, t))
            && (t.out.None? ==> AfterCodel(s, i, t).flows[i].queue == [])
  {
    hide CodelDequeue, Sum;
    var q, v := s.flows[i].queue, s.flows[i].codel;
    var t := CodelDequeue(q, v, now);
    CodelConserves(q, v, now);
    CodelBytes(q, v, now);
    SetQueueAccounts(s, i, t.queue, t.codel, 0 - (Bytes(t.dropped) + Bytes(OutSeq(t.out))));
    SetQueueLists(s, AfterCodel(s, i, t), i);
  }

  lemma HeadListed(s: Sched, i: nat)
    requires Inv(s) && HeadFlow(s) == Some(i)
    ensures IsListed(s, i) && i < |s.flows| == |s.backlogs| && s.listed > 0
  {
    assert IsListed(s, i);
  }

  lemma EmptyTurnKeeps(s: Sched, s1: Sched, i: nat)
    requires Inv(s1) && HeadFlow(s1) == Some(i) && i < |s1.flows| && s1.flows[i].queue == []
    requires s.newFlows == s1.newFlows && s.oldFlows == s1.oldFlows
    ensures s1.listed > 0
    ensures Inv(if s.newFlows != [] && s.oldFlows != [] then MoveToOld(s1) else Unlist(s1))
  {
    hide Inv;
    if s.newFlows != [] && s.oldFlows != [] { MoveKeeps(s1); }
    UnlistKeeps(s1, i);
  }

  /** Every turn keeps the scheduler's books and lists. */
  lemma TurnKeeps(s: Sched, now: nat)
    requires Inv(s)
    ensures Inv(TakeTurn(s, now).sched)
  {
    if HeadFlow(s).Some? {
      hide CodelDequeue, Inv, SetQueue, OutSeq, Bytes, MoveToOld, Unlist;
      var i := HeadFlow(s).value;
      HeadListed(s, i);
      if s.flows[i].credits <= 0 {
        CreditsKeeps(s, i, QUANTUM);
        MoveKeeps(AddCredits(s, i, QUANTUM));
      } else {
        var t := CodelDequeue(s.flows[i].queue, s.flows[i].codel, now);
        var s1 := AfterCodel(s, i, t);
        AfterCodelKeeps(s, i, now);
        AfterCodelShape(s, i, t);
        match t.out
        case Some(f) => CreditsKeeps(s1, i, 0 - f.bytes);
        case None => EmptyTurnKeeps(s, s1, i);
      }
    }
  }

  lemma AfterCodelShape(s: Sched, i: nat, t: Taken)
    requires i < |s.flows| && i < |s.backlogs|
    ensures var s1 := AfterCodel(s, i, t);
            && s1.newFlows == s.newFlows && s1.oldFlows == s.oldFlows && s1.listed == s.listed
            && s1.flows == s.flows[i := s.flows[i].(queue := t.queue, codel := t.codel)]
  {
  }

  lemma SetQueueLists(s: Sched, s': Sched, i: nat)
    requires Lists(s) && i < |s.flows| == |s'.flows| && IsListed(s, i)
    requires s'.newFlows == s.newFlows && s'.oldFlows == s.oldFlows && s'.listed == s.listed
    requires forall j :: 0 <= j < |s.flows| && j != i ==> s'.flows[j] == s.flows[j]
    ensures Lists(s')
  {
    assert forall j: nat :: IsListed(s', j) <==> IsListed(s, j);
  }

  // ---------------------------------------------------------------------------- termination

  /** The quanta a flow needs before it may send again. */
  function Rounds(credits: int): nat {
    if credits > 0 then 0 else (0 - credits) / QUANTUM + 1
  }

  function Debt(flows: seq<Flow>, l: seq<nat>): nat
    requires forall k :: 0 <= k < |l| ==> l[k] < |flows|
  {
    if l == [] then 0 else Rounds(flows[l[0]].credits) + Debt(flows, l[1..])
  }

  lemma {:induction false} DebtSnoc(flows: seq<Flow>, l: seq<nat>, i: nat)
    requires i < |flows| && forall k :: 0 <= k < |l| ==> l[k] < |flows|
    ensures Debt(flows, l + [i]) == Debt(flows, l) + Rounds(flows[i].credits)
    decreases |l|
  {
    if l == [] {
      assert l + [i] == [i];
    } else {
      DebtSnoc(flows, l[1..], i);
      assert (l + [i])[1..] == l[1..] + [i];
    }
  }

  lemma {:induction false} DebtSame(flows: seq<Flow>, flows': seq<Flow>, l: seq<nat>)
    requires |flows| == |flows'| && forall k :: 0 <= k < |l| ==> l[k] < |flows|
    requires forall k :: 0 <= k < |l| ==> flows[l[k]].credits == flows'[l[k]].credits
    ensures Debt(flows, l) == Debt(flows', l)
    decreases |l|
  {
    if l != [] { DebtSame(flows, flows', l[1..]); }
  }

  lemma OldInRange(s: Sched)
    requires Inv(s)
    ensures forall k :: 0 <= k < |s.oldFlows| ==> s.oldFlows[k] < |s.flows|
  {
    forall k | 0 <= k < |s.oldFlows| ensures s.oldFlows[k] < |s.flows| {
      assert IsListed(s, s.oldFlows[k]);
    }
  }

  /** A quantum granted to the first of the old flows lowers their debt by one. */
  lemma GrantLowersDebt(s: Sched, i: nat)
    requires Inv(s) && s.newFlows == [] && HeadFlow(s) == Some(i) && i < |s.flows|
    requires s.flows[i].credits <= 0
    ensures forall k :: 0 <= k < |s.oldFlows| ==> s.oldFlows[k] < |s.flows|
    ensures var s' := MoveToOld(AddCredits(s, i, QUANTUM));
            && (forall k :: 0 <= k < |s'.oldFlows| ==> s'.oldFlows[k] < |s'.flows|)
            && Debt(s'.flows, s'.oldFlows) == Debt(s.flows, s.oldFlows) - 1
  {
    OldInRange(s);
    var s', t := MoveToOld(AddCredits(s, i, QUANTUM)), s.oldFlows[1..];
    forall k | 0 <= k < |t| ensures s'.flows[t[k]].credits == s.flows[t[k]].credits {
      assert (s.newFlows + s.oldFlows)[0] != (s.newFlows + s.oldFlows)[k + 1];
    }
    DebtSame(s.flows, s'.flows, t);
    DebtSnoc(s'.flows, t, i);
  }

  /** The measure by which the loop of fqcodel_dequeue stops: new flows, then listed flows,
      then the debt of the old flows. */
  ghost predicate Progress(s: Sched, s': Sched)
    requires Inv(s) && Inv(s')
  {
    OldInRange(s);
    OldInRange(s');
    || |s'.newFlows| < |s.newFlows|
    || (|s'.newFlows| == |s.newFlows|
        && (|s'.oldFlows| < |s.oldFlows|
            || (|s'.oldFlows| == |s.oldFlows|
                && Debt(s'.flows, s'.oldFlows) < Debt(s.flows, s.oldFlows))))
  }

  /** A turn that returns nothing makes progress. */
  lemma TurnProgress(s: Sched, now: nat)
    requires Inv(s) && !TakeTurn(s, now).turn.Idle? && !TakeTurn(s, now).turn.Sent?
    ensures Inv(TakeTurn(s, now).sched) && Progress(s, TakeTurn(s, now).sched)
  {
    TurnKeeps(s, now);
    var i := HeadFlow(s).value;
    HeadListed(s, i);
    if s.newFlows == [] && s.flows[i].credits <= 0 {
      GrantLowersDebt(s, i);
    }
  }

  /** fqcodel_dequeue; clock(k) is the time read in the k-th turn. */
  function Dequeue(s: Sched, clock: nat -> nat, k: nat): Result
    requires Inv(s)
    decreases |s.newFlows|, |s.oldFlows|, (OldInRange(s); Debt(s.flows, s.oldFlows))
  {
    var r := TakeTurn(s, clock(k));
    if r.turn.Idle? || r.turn.Sent? then r
    else
      TurnProgress(s, clock(k));
      Dequeue(r.sched, clock, k + 1)
  }

  /** Flow j has lost n frames, from the head of its queue. */
  ghost predicate LostFromHead(s: Sched, s': Sched, j: nat, n: nat) {
    && j < |s.flows| == |s'.flows| && n <= |s.flows[j].queue|
    && s'.flows[j].queue == s.flows[j].queue[n..]
  }

  /** What became of flow j in a turn: it lost frames from its head only, and if the turn
      returned a frame of it, that is the last frame lost. */
  ghost predicate TookHead(s: Sched, r: Result, j: nat, n: nat) {
    && LostFromHead(s, r.sched, j, n)
    && (r.turn.Sent? && r.turn.flow == j ==> n > 0 && r.turn.frame == s.flows[j].queue[n - 1])
  }

  lemma TurnTakesHead(s: Sched, now: nat, j: nat) returns (n: nat)
    requires Inv(s) && j < |s.flows|
    ensures TookHead(s, TakeTurn(s, now), j, n)
  {
    n := 0;
    TurnFlows(s, now, j);
    hide TakeTurn;
    var q := s.flows[j].queue;
    assert q[0..] == q;
    if HeadFlow(s) == Some(j) && s.flows[j].credits > 0 {
      var t := CodelDequeue(q, s.flows[j].codel, now);
      CodelConserves(q, s.flows[j].codel, now);
      n := |t.dropped| + |OutSeq(t.out)|;
      assert t.queue == q[n..];
    }
  }

  /** The queues after a turn: only that of a head flow with credit is touched. */
  lemma TurnFlows(s: Sched, now: nat, j: nat)
    requires Inv(s) && j < |s.flows|
    ensures var r := TakeTurn(s, now);
            && |r.sched.flows| == |s.flows|
            && (r.turn.Sent? ==> HeadFlow(s) == Some(r.turn.flow))
            && if HeadFlow(s) == Some(j) && s.flows[j].credits > 0
               then var t := CodelDequeue(s.flows[j].queue, s.flows[j].codel, now);
                    r.sched.flows[j].queue == t.queue && r.sched.flows[j].codel == t.codel
                    && (r.turn.Sent? ==> t.out == Some(r.turn.frame))
                    && (t.out.Some? ==> r.turn == Sent(j, t.out.value))
               else r.sched.flows[j].queue == s.flows[j].queue
                    && r.sched.flows[j].codel == s.flows[j].codel
                    && (r.turn.Sent? ==> r.turn.flow != j)
  {
    if HeadFlow(s).Some? {
      HeadListed(s, HeadFlow(s).value);
      hide CodelDequeue, Inv;
    }
  }

  /** fqcodel_dequeue keeps the invariant, returns NULL only when no flow has a frame left,
      and takes frames off the heads of the queues only, the one it returns included. */
  lemma {:induction false} DequeueTotal(s: Sched, clock: nat -> nat, k: nat, j: nat)
    returns (n: nat)
    requires Inv(s) && j < |s.flows|
    ensures var r := Dequeue(s, clock, k);
            && Inv(r.sched) && (r.turn.Idle? || r.turn.Sent?) && TookHead(s, r, j, n)
            && (r.turn.Idle? ==> r.sched.flows[j].queue == [] && r.sched.limit == 0)
    decreases |s.newFlows|, |s.oldFlows|, (OldInRange(s); Debt(s.flows, s.oldFlows))
  {
    hide TakeTurn, Inv, Debt;
    TurnKeeps(s, clock(k));
    n := TurnTakesHead(s, clock(k), j);
    var r := TakeTurn(s, clock(k));
    if r.turn.Idle? {
      IdleMeansEmpty(s, clock(k));
    } else if !r.turn.Sent? {
      TurnProgress(s, clock(k));
      var m := DequeueTotal(r.sched, clock, k + 1, j);
      var q := s.flows[j].queue;
      assert q[n..][m..] == q[n + m..];
      n := n + m;
    }
  }

  lemma IdleMeansEmpty(s: Sched, now: nat)
    requires Inv(s) && TakeTurn(s, now).turn.Idle?
    ensures var t := TakeTurn(s, now).sched;
            t.limit == 0 && forall j :: 0 <= j < |t.flows| ==> t.flows[j].queue == []
  {
    AllEmpty(s);
  }

  /** With nothing listed, all queues are empty and nothing is accounted for. */
  lemma AllEmpty(s: Sched)
    requires Inv(s) && HeadFlow(s).None?
    ensures forall j :: 0 <= j < |s.flows| ==> s.flows[j].queue == []
    ensures s.limit == 0
  {
    forall j | 0 <= j < |s.flows| ensures s.flows[j].queue == [] && s.backlogs[j] == 0 {
      assert !IsListed(s, j);
    }
    SumZero(s.backlogs);
  }

  lemma {:induction false} SumZero(ns: seq<int>)
    requires forall j :: 0 <= j < |ns| ==> ns[j] == 0
    ensures Sum(ns) == 0
    decreases |ns|
  {
    if ns != [] { SumZero(ns[..|ns| - 1]); }
  }

  // ------------------------------------------------------------- enqueue, drop and peek

  /** The first index with the largest number. */
  function Largest(ns: seq<int>): (r: nat)
    requires ns != []
    ensures r < |ns| && forall j :: 0 <= j < |ns| ==> ns[j] <= ns[r] && (j < r ==> ns[j] < ns[r])
  {
    var k := |ns| - 1;
    if k == 0 then 0
    else
      var m := Largest(ns[..k]);
      assert forall j :: 0 <= j < k ==> ns[j] == ns[..k][j];
      if ns[k] > ns[m] then k else m
  }

  /** fqcodel_enqueue before the test for the limit: a flow that was not listed becomes a new
      flow with one quantum. */
  function Append(s: Sched, i: nat, f: Frame): Sched
    requires i < |s.flows| && i < |s.backlogs|
  {
    var s1 := SetQueue(s, i, s.flows[i].queue + [f], s.flows[i].codel, f.bytes);
    if IsListed(s, i) then s1
    else
      s1.(newFlows := s.newFlows + [i], listed := s.listed + 1,
          flows := s1.flows[i := s1.flows[i].(credits := QUANTUM)])
  }

  /** fqcodel_drop, in so far as it drops some number k of frames from the head of a largest
      queue. */
  function DropHeads(s: Sched, k: nat): Sched
    requires s.backlogs != [] && |s.backlogs| == |s.flows|
    requires k <= |s.flows[Largest(s.backlogs)].queue|
  {
    var i := Largest(s.backlogs);
    var q := s.flows[i].queue;
    SetQueue(s, i, q[k..], s.flows[i].codel, 0 - Bytes(q[..k])).(dropped := s.dropped + k)
  }

  /** The flow has more than its share of the buffer. */
  predicate OverLimit(s: Sched, i: nat)
    requires i < |s.backlogs| && s.listed > 0
  {
    s.backlogs[i] >= QUEUE_SIZE / s.listed
  }

  lemma AppendKeeps(s: Sched, i: nat, f: Frame)
    requires Inv(s) && i < |s.flows|
    ensures Inv(Append(s, i, f)) && Append(s, i, f).listed > 0
  {
    var q := s.flows[i].queue;
    BytesAppend(q, [f]);
    assert Bytes([f]) == f.bytes + Bytes([f][1..]);
    SetQueueAccounts(s, i, q + [f], s.flows[i].codel, f.bytes);
    var s' := Append(s, i, f);
    if IsListed(s, i) {
      SetQueueLists(s, s', i);
      assert s.newFlows + s.oldFlows != [];
    } else {
      AppendLists(s, s', i);
    }
  }

  lemma AppendLists(s: Sched, s': Sched, i: nat)
    requires Lists(s) && i < |s.flows| == |s'.flows| && !IsListed(s, i)
    requires s'.newFlows == s.newFlows + [i] && s'.oldFlows == s.oldFlows
    requires s'.listed == s.listed + 1
    requires forall j :: 0 <= j < |s.flows| && j != i ==> s'.flows[j] == s.flows[j]
    ensures Lists(s')
  {
    assert forall j: nat :: IsListed(s', j) <==> IsListed(s, j) || j == i;
    var l, l' := s.newFlows + s.oldFlows, s'.newFlows + s'.oldFlows;
    var m := |s.newFlows|;
    assert forall k :: 0 <= k < |l| ==> l[k] != i && IsListed(s, l[k]);
    forall a, b | 0 <= a < b < |l'| ensures l'[a] != l'[b] {
      assert l'[a] == if a < m then l[a] else if a == m then i else l[a - 1];
      assert l'[b] == if b < m then l[b] else if b == m then i else l[b - 1];
    }
  }

  lemma DropKeeps(s: Sched, k: nat)
    requires Inv(s) && s.flows != [] && k <= |s.flows[Largest(s.backlogs)].queue|
    ensures Inv(DropHeads(s, k))
  {
    var i := Largest(s.backlogs);
    var q := s.flows[i].queue;
    assert q[..k] + q[k..] == q;
    hide Bytes, Sum;
    BytesAppend(q[..k], q[k..]);
    SetQueueAccounts(s, i, q[k..], s.flows[i].codel, 0 - Bytes(q[..k]));
    var s' := DropHeads(s, k);
    hide Largest;
    assert forall j: nat :: IsListed(s', j) <==> IsListed(s, j);
  }

  /** Numbers below n, none twice: at most n of them. */
  lemma {:induction false} AtMost(l: seq<nat>, n: nat)
    requires Distinct(l) && forall k :: 0 <= k < |l| ==> l[k] < n
    ensures |l| <= n
    decreases n
  {
    assert |l| > 0 ==> l[0] < n;
    if n > 0 {
      if k: nat :| k < |l| && l[k] == n - 1 {
        var t := l[..k] + l[k + 1..];
        forall j | 0 <= j < |t| ensures t[j] < n - 1 {
          assert t[j] == if j < k then l[j] else l[j + 1];
        }
        AtMost(t, n - 1);
      } else {
        AtMost(l, n - 1);
      }
    }
  }

  /** When the limit is exceeded there is a frame to drop: the division by the number of
      listed flows is defined, and the largest queue is not empty. */
  lemma DropIsSafe(s: Sched, i: nat)
    requires Inv(s) && i < |s.flows| <= QUEUE_SIZE && s.listed > 0 && OverLimit(s, i)
    ensures s.flows[Largest(s.backlogs)].queue != []
  {
    var l := s.newFlows + s.oldFlows;
    forall k | 0 <= k < |l| ensures l[k] < |s.flows| {
      assert IsListed(s, l[k]);
    }
    AtMost(l, |s.flows|);
    ShareIsPositive(s.listed);
  }

  lemma ShareIsPositive(n: nat)
    requires 0 < n <= QUEUE_SIZE
    ensures QUEUE_SIZE / n >= 1
  {
  }

  /** fqcodel_peek: the head flow's first frame; an empty one joins the old flows. */
  function Peek(s: Sched): Sched
    requires Inv(s)
  {
    match HeadFlow(s)
    case None => s
    case Some(i) =>
      HeadListed(s, i);
      if s.flows[i].queue == [] then MoveToOld(s) else s
  }

  lemma PeekKeeps(s: Sched)
    requires Inv(s)
    ensures Inv(Peek(s))
  {
    if HeadFlow(s).Some? { MoveKeeps(s); }
  }
}
