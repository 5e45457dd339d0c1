/** Who waits for whom in the FQ-CoDel scheduler (picoquic/fqCoDel.c): new flows are served before
    old ones, and yet no flow starves an old one. */
module Starvation {

  import opened Varint
  import opened FqCodel
  import opened Fairness

  // --------------------------------------------------------------------------- lists and credits

  /** A flow that gets a frame without being listed becomes the last of the new flows, with a full
      quantum; nothing else is listed, unlisted or credited. */
  lemma JoinsAsNew(s: Sched, op: Op)
    requires CanStep(s, op) && op.Enqueue?
    ensures var s' := Apply(s, op);
            && s'.newFlows == s.newFlows + (if IsListed(s, op.flow) then [] else [op.flow])
            && s'.oldFlows == s.oldFlows && |s'.flows| == |s.flows|
            && forall j :: 0 <= j < |s.flows| ==>
                 s'.flows[j].credits
                 == if j == op.flow && !IsListed(s, j) then QUANTUM else s.flows[j].credits
  {
    AppendKeeps(s, op.flow, op.frame);
    assert |s.backlogs| == |s.flows|;
    hide Inv, Largest;
  }

  /** The lists after a turn. */
  lemma TurnLists(s: Sched, now: nat)
    requires Inv(s)
    ensures var r := TakeTurn(s, now);
            match r.turn
            case Idle => s.newFlows == s.oldFlows == [] && r.sched == s
            case Sent(i, _) => HeadFlow(s) == Some(i)
                               && r.sched.newFlows == s.newFlows && r.sched.oldFlows == s.oldFlows
            case Unlisted(i) => HeadFlow(s) == Some(i) && (s.newFlows == [] || s.oldFlows == [])
                                && i < |s.flows| && s.flows[i].credits > 0
                                && r.sched.newFlows == (if s.newFlows != [] then s.newFlows[1..] else [])
                                && r.sched.oldFlows == (if s.newFlows != [] then [] else s.oldFlows[1..])
            case _ => HeadFlow(s) == Some(r.turn.flow) && (r.turn.Moved? ==> s.newFlows != [])
                      && if s.newFlows != []
                         then r.sched.newFlows == s.newFlows[1..]
                              && r.sched.oldFlows == s.oldFlows + [s.newFlows[0]]
                         else r.sched.newFlows == [] && r.sched.oldFlows == s.oldFlows[1..] + [s.oldFlows[0]]
  {
    if HeadFlow(s).Some? {
      HeadListed(s, HeadFlow(s).value);
      hide CodelDequeue, Inv;
    }
  }

  // --------------------------------------------------------------------------- new flows first

  /** Flow g is among the new flows, behind exactly those of `ahead`. */
  ghost predicate Waits(s: Sched, ahead: seq<nat>, g: nat) {
    ahead + [g] <= s.newFlows
  }

  /** While it stays there, only those ahead of it and itself have turns, and none comes between. */
  lemma StepAhead(s: Sched, op: Op, ahead: seq<nat>, g: nat) returns (rest: seq<nat>)
    requires CanStep(s, op) && Waits(s, ahead, g) && g in Apply(s, op).newFlows
    ensures Waits(Apply(s, op), rest, g) && (rest == ahead || (ahead != [] && rest == ahead[1..]))
    ensures op.Turn? ==> var turn := TakeTurn(s, op.now).turn;
                         !turn.Idle? && turn.flow == (ahead + [g])[0]
  {
    rest := ahead;
    var l, s' := ahead + [g], Apply(s, op);
    assert s.newFlows[0] == l[0] && s.newFlows[..|l|] == l;
    NewApart(s);
    match op {
      case Enqueue(i, f, k) =>
        JoinsAsNew(s, op);
        assert s'.newFlows[..|l|] == l;
      case PeekHead =>
        PeekLists(s);
        if s'.newFlows != s.newFlows { rest := Advance(s, s', ahead, g); }
      case Turn(now) =>
        TurnLists(s, now);
        if s'.newFlows != s.newFlows { rest := Advance(s, s', ahead, g); }
    }
  }

  lemma NewApart(s: Sched)
    requires Inv(s)
    ensures Distinct(s.newFlows)
  {
    var l := s.newFlows + s.oldFlows;
    assert forall k :: 0 <= k < |s.newFlows| ==> l[k] == s.newFlows[k];
  }

  lemma Advance(s: Sched, s': Sched, ahead: seq<nat>, g: nat) returns (rest: seq<nat>)
    requires Waits(s, ahead, g) && Distinct(s.newFlows) && s'.newFlows == s.newFlows[1..] && g in s'.newFlows
    ensures ahead != [] && rest == ahead[1..] && Waits(s', rest, g)
  {
    var l := s.newFlows;
    NotInTail(l);
    assert l[..|ahead| + 1] == ahead + [g];
    assert ahead != [];
    rest := ahead[1..];
    assert l[1..][..|ahead|] == rest + [g];
  }

  lemma PeekLists(s: Sched)
    requires Inv(s)
    ensures var t := Peek(s);
            && t.flows == s.flows
            && ((t.newFlows == s.newFlows && t.oldFlows == s.oldFlows)
                || (exists i :: HeadFlow(s) == Some(i) && i < |s.flows| && s.flows[i].queue == []
                      && if s.newFlows != []
                         then t.newFlows == s.newFlows[1..] && t.oldFlows == s.oldFlows + [i]
                         else t.newFlows == [] && t.oldFlows == s.oldFlows[1..] + [i]))
  {
    if HeadFlow(s).Some? { HeadListed(s, HeadFlow(s).value); }
  }

  /** Flow g stays among the new flows from a to b. */
  ghost predicate StaysNew(states: seq<Sched>, g: nat, a: nat, b: nat)
    requires a <= b < |states|
  {
    forall n :: a <= n <= b ==> g in states[n].newFlows
  }

  /** New flows first, in the order they came: as long as a flow is among the new ones, only those
      that were ahead of it and the flow itself have turns. */
  lemma {:induction false} NewServedFirst(states: seq<Sched>, ops: seq<Op>, ahead: seq<nat>, g: nat,
                                          a: nat, b: nat)
    returns (rest: seq<nat>)
    requires IsRun(states, ops) && a <= b < |states| == |ops| + 1 && StaysNew(states, g, a, b)
    requires Waits(states[a], ahead, g)
    ensures Waits(states[b], rest, g) && |rest| <= |ahead| && rest == ahead[|ahead| - |rest|..]
    ensures b < |ops| && ops[b].Turn? ==>
              && Inv(states[b])
              && var turn := TakeTurn(states[b], ops[b].now).turn;
                 !turn.Idle? && (turn.flow == g || turn.flow in ahead)
    decreases b - a
  {
    hide *;
    rest := ahead;
    if a < b {
      StaysBefore(states, g, a, b);
      RunStep(states, ops, b - 1);
      var before := NewServedFirst(states, ops, ahead, g, a, b - 1);
      rest := StepAhead(states[b - 1], ops[b - 1], before, g);
    }
    if b < |ops| && ops[b].Turn? {
      RunStep(states, ops, b);
      HeadTurn(states[b], rest, g, ops[b].now);
    }
  }

  lemma StaysBefore(states: seq<Sched>, g: nat, a: nat, b: nat)
    requires a < b < |states| && StaysNew(states, g, a, b)
    ensures StaysNew(states, g, a, b - 1) && g in states[b].newFlows
  {
  }

  lemma RunStep(states: seq<Sched>, ops: seq<Op>, i: nat)
    requires IsRun(states, ops) && i < |ops| < |states|
    ensures Inv(states[i]) && CanStep(states[i], ops[i]) && states[i + 1] == Apply(states[i], ops[i])
  {
    hide Apply, Inv;
  }

  lemma HeadTurn(s: Sched, rest: seq<nat>, g: nat, now: nat)
    requires Waits(s, rest, g) && Inv(s)
    ensures var turn := TakeTurn(s, now).turn; !turn.Idle? && turn.flow == (rest + [g])[0]
  {
    assert s.newFlows[0] == (rest + [g])[0];
    TurnLists(s, now);
  }

  // --------------------------------------------------------------------------- no starvation

  /** Where flow g is in its cycle past the old flow f: 0 before it or not listed, 1 among the new
      flows, 2 behind it. */
  ghost function Phase(news: seq<nat>, olds: seq<nat>, f: nat, g: nat): nat {
    if g in news then 1 else if g in olds && Before(olds, f, g) then 2 else 0
  }

  lemma NewToOld(news: seq<nat>, olds: seq<nat>, f: nat, g: nat)
    requires news != [] && Distinct(news + olds) && f in olds && f != g
    ensures var h := news[0];
            Phase(news[1..], olds + [h], f, g) == if g == h then 2 else Phase(news, olds, f, g)
  {
    var h, l := news[0], news + olds;
    assert h !in news[1..] && h !in olds by {
      assert forall k :: 1 <= k < |l| ==> l[0] != l[k];
      assert forall k :: 0 <= k < |olds| ==> olds[k] == l[|news| + k];
      assert forall k :: 0 <= k < |news[1..]| ==> news[1..][k] == l[k + 1];
    }
    assert news == [h] + news[1..];
    if g == h {
      var a :| 0 <= a < |olds| && olds[a] == f;
      assert (olds + [h])[a] == f && (olds + [h])[|olds|] == h;
    } else {
      OrderInSnoc(olds, h, f, g);
      hide Before;
    }
  }

  lemma Rotate(olds: seq<nat>, f: nat, g: nat)
    requires olds != [] && Distinct(olds) && f in olds && f != g
    ensures var olds' := olds[1..] + [olds[0]];
            Phase([], olds', f, g) == if g !in olds || olds[0] == f then 0
                                      else if olds[0] == g then 2 else Phase([], olds, f, g)
    ensures olds[0] == g ==> Phase([], olds, f, g) == 0
  {
    var olds' := olds[1..] + [olds[0]];
    assert olds == [olds[0]] + olds[1..];
    assert forall h :: h in olds' <==> h in olds;
    NotInTail(olds);
    RotateApart(olds);
    if g in olds {
      hide Before, Distinct;
      ShiftOrder(olds, olds', Rotated, f, g);
    }
  }

  lemma RotateApart(l: seq<nat>)
    requires Distinct(l) && l != []
    ensures Distinct(l[1..] + [l[0]])
  {
    var t := l[1..] + [l[0]];
    forall i, j | 0 <= i < j < |t| ensures t[i] != t[j] {
      if j == |l| - 1 { assert l[0] != l[i + 1]; } else { assert l[i + 1] != l[j + 1]; }
    }
  }

  lemma RemoveHead(olds: seq<nat>, f: nat, g: nat)
    requires olds != [] && Distinct(olds) && f in olds[1..] && f != g
    ensures Phase([], olds[1..], f, g) == Phase([], olds, f, g)
  {
    NotInTail(olds);
    assert olds == [olds[0]] + olds[1..];
    if g == olds[0] {
      assert !Before(olds, f, g);
    } else {
      OrderInTail(olds, f, g);
      hide Before;
    }
  }

  /** The quanta that flow g gets in one operation, granted or on joining the new flows. */
  ghost function OpQuanta(s: Sched, op: Op, g: nat): nat
    requires CanStep(s, op)
  {
    match op
    case Enqueue(i, _, _) => if i == g && !IsListed(s, g) then 1 else 0
    case PeekHead => 0
    case Turn(now) => OpGrants(s, op, g)
  }

  /** Between two grants to the old flow f, flow g gets at most two quanta. */
  lemma TurnPhase(s: Sched, op: Op, f: nat, g: nat)
    requires CanStep(s, op) && op.Turn? && f != g && f in s.oldFlows && f in Apply(s, op).oldFlows
    ensures var s' := Apply(s, op);
            OpQuanta(s, op, g) + Phase(s.newFlows, s.oldFlows, f, g)
            <= 2 * OpGrants(s, op, f) + Phase(s'.newFlows, s'.oldFlows, f, g)
  {
    TurnLists(s, op.now);
    NewNotOld(s);
    var r := TakeTurn(s, op.now);
    assert Distinct(s.newFlows + s.oldFlows);
    hide Inv, TakeTurn, CanStep, Phase;
    if s.newFlows != [] {
      if r.turn.Granted? || r.turn.Moved? {
        NewToOld(s.newFlows, s.oldFlows, f, g);
        PhaseOfHead(s.newFlows, s.oldFlows, f);
      }
    } else if r.turn.Granted? {
      Rotate(s.oldFlows, f, g);
      PhaseBound(s.newFlows, s.oldFlows, f, g);
    } else if r.turn.Unlisted? {
      RemoveHead(s.oldFlows, f, g);
    }
  }

  lemma PhaseBound(news: seq<nat>, olds: seq<nat>, f: nat, g: nat)
    ensures Phase(news, olds, f, g) <= 2 && (!(g in news || g in olds) ==> Phase(news, olds, f, g) == 0)
  {
  }

  lemma PhaseOfHead(news: seq<nat>, olds: seq<nat>, f: nat)
    requires news != []
    ensures Phase(news, olds, f, news[0]) == 1
  {
  }

  lemma StepPhase(s: Sched, op: Op, f: nat, g: nat)
    requires CanStep(s, op) && f != g && Busy(s, op, f) && f in Apply(s, op).oldFlows
    ensures var s' := Apply(s, op);
            OpQuanta(s, op, g) + Phase(s.newFlows, s.oldFlows, f, g)
            <= 2 * OpGrants(s, op, f) + Phase(s'.newFlows, s'.oldFlows, f, g)
  {
    match op
    case Turn(now) => TurnPhase(s, op, f, g);
    case Enqueue(i, _, _) =>
      JoinsAsNew(s, op);
    case PeekHead =>
      PeekLists(s);
      NewNotOld(s);
      assert Distinct(s.newFlows + s.oldFlows);
      hide Inv, Peek, Phase;
      if Apply(s, op).oldFlows != s.oldFlows {
        if s.newFlows != [] {
          NewToOld(s.newFlows, s.oldFlows, f, g);
          PhaseOfHead(s.newFlows, s.oldFlows, f);
        } else {
          Rotate(s.oldFlows, f, g);
          PhaseBound(s.newFlows, s.oldFlows, f, g);
        }
      }
  }

  /** A flow that is not listed owes nothing and keeps no more than one quantum. */
  ghost predicate Solvent(s: Sched) {
    forall j: nat :: j < |s.flows| && !IsListed(s, j) ==> 0 <= s.flows[j].credits <= QUANTUM
  }

  /** One operation, seen from flow g: what it sends is paid for from its credits, which only
      quanta raise. */
  lemma StepPays(s: Sched, op: Op, g: nat)
    requires CanStep(s, op) && Solvent(s) && g < |s.flows|
    ensures var s' := Apply(s, op);
            && |s'.flows| == |s.flows|
            && s'.flows[g].credits + OpSent(s, op, g) <= s.flows[g].credits + QUANTUM * OpQuanta(s, op, g)
  {
    match op
    case Enqueue(i, _, _) => JoinsAsNew(s, op);
    case PeekHead => PeekLists(s);
    case Turn(now) => TurnEffect(s, now, g);
  }

  lemma UnlistedTurn(s: Sched, now: nat, j: nat)
    requires Inv(s) && j < |s.flows| && IsListed(s, j) && !IsListed(TakeTurn(s, now).sched, j)
    ensures s.flows[j].credits > 0 && |TakeTurn(s, now).sched.flows| == |s.flows|
    ensures TakeTurn(s, now).sched.flows[j].credits == s.flows[j].credits
  {
    TurnLists(s, now);
    TurnEffect(s, now, j);
    var r := TakeTurn(s, now);
    hide Inv, TakeTurn;
    if s.newFlows != [] { assert s.newFlows == [s.newFlows[0]] + s.newFlows[1..]; }
    if s.oldFlows != [] { assert s.oldFlows == [s.oldFlows[0]] + s.oldFlows[1..]; }
  }

  lemma UntouchedTurn(s: Sched, now: nat, j: nat)
    requires Inv(s) && j < |s.flows| && !IsListed(s, j)
    ensures |TakeTurn(s, now).sched.flows| == |s.flows|
    ensures TakeTurn(s, now).sched.flows[j].credits == s.flows[j].credits
  {
    TurnLists(s, now);
    TurnEffect(s, now, j);
    hide Inv, TakeTurn;
  }

  lemma StepSolvent(s: Sched, op: Op, m: nat)
    requires CanStep(s, op) && Solvent(s) && CreditOk(s, m)
    ensures Solvent(Apply(s, op))
  {
    match op
    case Enqueue(i, _, _) => JoinsAsNew(s, op);
    case PeekHead =>
      PeekLists(s);
      if HeadFlow(s).Some? { MoveKeeps(s); }
    case Turn(now) =>
      var s' := Apply(s, op);
      if s.flows == [] { NoFlows(s, now); } else { TurnEffect(s, now, 0); }
      forall j: nat | j < |s'.flows| && !IsListed(s', j) ensures 0 <= s'.flows[j].credits <= QUANTUM {
        if IsListed(s, j) { UnlistedTurn(s, now, j); } else { UntouchedTurn(s, now, j); }
      }
  }

  lemma {:induction false} RunSolvent(states: seq<Sched>, ops: seq<Op>, m: nat, n: nat)
    requires BoundedRun(states, ops, m) && Solvent(states[0]) && n < |states|
    ensures Solvent(states[n])
  {
    if n > 0 {
      RunSolvent(states, ops, m, n - 1);
      RunBounded(states, ops, m, n - 1);
      hide Solvent, CreditOk, Small, Inv;
      StepSolvent(states[n - 1], ops[n - 1], m);
    }
  }

  /** The quanta of flow g in the first n operations. */
  ghost function Quanta(states: seq<Sched>, ops: seq<Op>, g: nat, n: nat): nat
    requires IsRun(states, ops) && n <= |ops|
  {
    if n == 0 then 0 else Quanta(states, ops, g, n - 1) + OpQuanta(states[n - 1], ops[n - 1], g)
  }

  lemma {:induction false} QuantaLaw(states: seq<Sched>, ops: seq<Op>, f: nat, g: nat, n: nat)
    requires IsRun(states, ops) && n <= |ops| && f != g && AlwaysBusy(states, ops, f)
    ensures Quanta(states, ops, g, n) + Phase(states[0].newFlows, states[0].oldFlows, f, g)
            <= 2 * Grants(states, ops, f, n) + Phase(states[n].newFlows, states[n].oldFlows, f, g)
  {
    hide CanStep, Apply, OpQuanta, OpGrants, Phase;
    if n > 0 {
      QuantaLaw(states, ops, f, g, n - 1);
      assert Busy(states[n - 1], ops[n - 1], f) && f in states[n].oldFlows;
      StepPhase(states[n - 1], ops[n - 1], f, g);
    }
  }

  lemma {:induction false} PaidFor(states: seq<Sched>, ops: seq<Op>, m: nat, g: nat, n: nat)
    requires BoundedRun(states, ops, m) && Solvent(states[0]) && n <= |ops| && g < |states[0].flows|
    ensures g < |states[n].flows|
    ensures states[n].flows[g].credits + SentBytes(states, ops, g, n)
            <= states[0].flows[g].credits + QUANTUM * Quanta(states, ops, g, n)
  {
    if n > 0 {
      PaidFor(states, ops, m, g, n - 1);
      RunSolvent(states, ops, m, n - 1);
      hide CanStep, Apply, OpQuanta, OpSent, Solvent, Small, CreditOk, Inv;
      StepPays(states[n - 1], ops[n - 1], g);
    }
  }

  lemma CreditBounds(s: Sched, m: nat, g: nat)
    requires CreditOk(s, m) && Solvent(s) && g < |s.flows|
    ensures 0 - m <= s.flows[g].credits <= QUANTUM
  {
  }

  /** No starvation: over any stretch of any run, while flow f stays busy among the old flows, no
      other flow, whether it stays listed or comes and goes as a new flow again and again, gets
      more than two quanta for each of f's, give or take a constant; nor more than twice the bytes. */
  lemma NoStarvation(states: seq<Sched>, ops: seq<Op>, m: nat, f: nat, g: nat, n: nat)
    requires BoundedRun(states, ops, m) && Solvent(states[0]) && n <= |ops| && f != g
    requires AlwaysBusy(states, ops, f) && g < |states[0].flows|
    ensures SentBytes(states, ops, g, n) <= (2 * Grants(states, ops, f, n) + 3) * QUANTUM + m
    ensures SentBytes(states, ops, g, n) <= 2 * SentBytes(states, ops, f, n) + 5 * QUANTUM + 3 * m
  {
    QuantaLaw(states, ops, f, g, n);
    PhaseBound(states[n].newFlows, states[n].oldFlows, f, g);
    BusyBounds(states, ops, m, f, 0);
    BusyBounds(states, ops, m, f, n);
    CreditLaw(states, ops, f, n);
    PaidFor(states, ops, m, g, n);
    RunBounded(states, ops, m, n);
    RunSolvent(states, ops, m, n);
    hide IsRun, AlwaysBusy, SentBytes, Grants, Quanta, Solvent, CreditOk, Small, Inv, Phase;
    CreditBounds(states[0], m, g);
    CreditBounds(states[n], m, g);
  }

  /** The empty scheduler is solvent, and so is every later one. */
  lemma StretchSolvent(states: seq<Sched>, ops: seq<Op>, flows: nat, m: nat, k: nat)
    requires IsRun(states, ops) && states[0] == Init(flows) && k <= |ops|
    requires forall i :: 0 <= i < |ops| ==> SmallOp(ops[i], m)
    ensures BoundedRun(states[k..], ops[k..], m) && Solvent(states[k..][0])
  {
    StretchBounded(states, ops, flows, m, k);
    StretchBounded(states, ops, flows, m, 0);
    assert states[0..] == states && ops[0..] == ops;
    RunSolvent(states, ops, m, k);
  }

  // ------------------------------------------------------------------------------------- peeking

  /** The scheduler after k calls of fqcodel_peek. */
  ghost function Peeks(s: Sched, k: nat): (t: Sched)
    requires Inv(s)
    ensures Inv(t)
    decreases k
  {
    if k == 0 then s
    else
      PeekKeeps(s);
      Peeks(Peek(s), k - 1)
  }

  lemma PeekRotates(s: Sched)
    requires Inv(s) && HeadFlow(s).Some?
    ensures var l, t := s.newFlows + s.oldFlows, Peek(s);
            && l != [] && HeadFlow(s) == Some(l[0]) && l[0] < |s.flows| && t.flows == s.flows
            && (s.flows[l[0]].queue == [] ==> t.newFlows + t.oldFlows == l[1..] + [l[0]])
            && (s.flows[l[0]].queue != [] ==> t == s)
  {
    HeadListed(s, HeadFlow(s).value);
    var l, t := s.newFlows + s.oldFlows, Peek(s);
    if s.newFlows != [] && t != s {
      assert s.newFlows == [s.newFlows[0]] + s.newFlows[1..];
      assert t.newFlows + t.oldFlows == l[1..] + [l[0]];
    }
  }

  /** A caller that peeks again and again gets to the first flow of the lists that has a frame,
      after as many calls as there are empty flows before it, and stays there. */
  lemma {:induction false} PeekFinds(s: Sched, p: nat)
    requires Inv(s) && p < |s.newFlows + s.oldFlows|
    requires forall k :: 0 <= k <= p ==> (s.newFlows + s.oldFlows)[k] < |s.flows|
    requires forall k :: 0 <= k < p ==> s.flows[(s.newFlows + s.oldFlows)[k]].queue == []
    requires s.flows[(s.newFlows + s.oldFlows)[p]].queue != []
    ensures var t := Peeks(s, p);
            HeadFlow(t) == Some((s.newFlows + s.oldFlows)[p]) && t.flows == s.flows && Peek(t) == t
    decreases p
  {
    PeekRotates(s);
    if p > 0 {
      PeekKeeps(s);
      var l, t := s.newFlows + s.oldFlows, Peek(s);
      var l' := t.newFlows + t.oldFlows;
      assert s.flows[l[0]].queue == [];
      assert forall k :: 0 <= k < p ==> l'[k] == l[k + 1];
      hide Inv, Peek;
      PeekFinds(t, p - 1);
    }
  }
}
