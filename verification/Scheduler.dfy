/** The scheduler as it is programmed: flows and backlogs updated in place
    (picoquic/fqCoDel.c). */
module Scheduler {

  import opened Varint
  import opened FqCodel

  /** Flow i of `s` with another queue and CoDel state, x bytes less accounted for, and n more
      frames dropped. */
  ghost function Changed(s: Sched, i: nat, q: seq<Frame>, v: Codel, x: int, n: nat): Sched
    requires i < |s.flows| && i < |s.backlogs|
  {
    SetQueue(s, i, q, v, 0 - x).(dropped := s.dropped + n)
  }

  lemma ChangedFlow(s: Sched, i: nat, q: seq<Frame>, v: Codel, x: int, n: nat)
    requires i < |s.flows| && i < |s.backlogs|
    ensures var s' := Changed(s, i, q, v, x, n);
            && |s'.flows| == |s.flows| && |s'.backlogs| == |s.backlogs|
            && s'.flows[i] == s.flows[i].(queue := q, codel := v)
    ensures Changed(s, i, s.flows[i].queue, s.flows[i].codel, 0, 0) == s
  {
  }

  lemma ChangedTwice(s: Sched, i: nat, q: seq<Frame>, v: Codel, x: int, n: nat,
                     q': seq<Frame>, v': Codel, x': int, n': nat)
    requires i < |s.flows| && i < |s.backlogs|
    ensures Changed(Changed(s, i, q, v, x, n), i, q', v', x', n')
         == Changed(s, i, q', v', x + x', n + n')
  {
  }

  class Scheduler {
    const flows: array<Flow>
    const backlogs: array<int>
    var limit: int
    var drops: nat
    var newFlows: seq<nat>
    var oldFlows: seq<nat>
    var newFlowCount: nat

    ghost predicate Valid()
      reads this, flows, backlogs
    {
      flows.Length == backlogs.Length && Inv(Abstract())
    }

    ghost function Abstract(): Sched
      reads this, flows, backlogs
    {
      Sched(flows[..], backlogs[..], limit, drops, newFlows, oldFlows, newFlowCount)
    }

    /** fqcodel_init. */
    constructor (n: nat)
      ensures Valid() && fresh(flows) && fresh(backlogs) && Abstract() == Init(n)
    {
      flows := new Flow[n](_ => EMPTY);
      backlogs := new int[n](_ => 0);
      limit, drops, newFlows, oldFlows, newFlowCount := 0, 0, [], [], 0;
      new;
      assert flows[..] == seq(n, _ => EMPTY) && backlogs[..] == seq(n, _ => 0);
      SumZero(backlogs[..]);
    }

    /** dequeue_function: the frame at the head of a flow leaves the queue and the accounts. */
    method DequeueFrame(i: nat) returns (f: Option<Frame>)
      requires i < flows.Length == backlogs.Length
      modifies flows, backlogs, this`limit
      ensures old(flows[i].queue) == [] ==> f == None && Abstract() == old(Abstract())
      ensures old(flows[i].queue) != [] ==>
        && f == Some(old(flows[i].queue)[0])
        && Abstract() == Changed(old(Abstract()), i, old(flows[i].queue)[1..],
                                 old(flows[i].codel), f.value.bytes, 0)
    {
      var flow := flows[i];
      if flow.queue == [] { return None; }
      f := Some(flow.queue[0]);
      flows[i] := flow.(queue := flow.queue[1..]);
      backlogs[i] := backlogs[i] - f.value.bytes;
      limit := limit - f.value.bytes;
    }

    /** drop_function, and the change of CoDel's state that goes with it. */
    method SetCodel(i: nat, v: Codel, drop: bool)
      requires i < flows.Length == backlogs.Length
      modifies flows, this`drops
      ensures Abstract() == Changed(old(Abstract()), i, old(flows[i].queue), v, 0,
                                    if drop then 1 else 0)
    {
      flows[i] := flows[i].(codel := v);
      if drop { drops := drops + 1; }
      assert backlogs[..] == old(backlogs[..])[i := old(backlogs[i]) + 0];
    }

    /** One turn of the loop of codel_dequeue in the dropping state. */
    method DropOne(i: nat, now: nat) returns (next: Option<Frame>)
      requires i < flows.Length == backlogs.Length
      modifies flows, backlogs, this`limit, this`drops
      ensures var q, v := old(flows[i].queue), old(flows[i].codel);
              var v1 := v.(count := v.count + 1);
              if q == [] then next == None && Abstract() == Changed(old(Abstract()), i, [], v1, 0, 1)
              else next == Some(q[0]) && Abstract() == Changed(old(Abstract()), i, q[1..],
                     AfterDrop(v1, q[0], now), q[0].bytes, 1)
    {
      hide AfterDrop;
      var v := flows[i].codel;
      v := v.(count := v.count + 1);
      SetCodel(i, v, true);
      next := DequeueFrame(i);
      if next.Some? {
        SetCodel(i, AfterDrop(flows[i].codel, next.value, now), false);
      }
    }

    /** The loop of codel_dequeue in the dropping state, with frame f0 in hand. */
    method DropLoop(i: nat, f0: Frame, now: nat) returns (out: Option<Frame>)
      requires i < flows.Length == backlogs.Length
      modifies flows, backlogs, this`limit, this`drops
      ensures var t := DropWhile(old(flows[i].queue), old(flows[i].codel), f0, now);
              && out == t.out
              && Abstract() == Changed(old(Abstract()), i, t.queue, t.codel,
                   Bytes(t.dropped) + Bytes(OutSeq(t.out)) - f0.bytes, |t.dropped|)
    {
      hide DropWhile, Changed, Bytes, AfterDrop;
      var f := f0;
      ghost var s0 := Abstract();
      ghost var t := DropWhile(flows[i].queue, flows[i].codel, f0, now);
      ghost var gone: seq<Frame> := [];
      ChangedFlow(s0, i, [], flows[i].codel, 0, 0);
      BytesOne(f0);
      assert [] + t.dropped == t.dropped;
      while now > flows[i].codel.dropNext && flows[i].codel.dropping
        invariant Abstract() == Changed(s0, i, flows[i].queue, flows[i].codel,
                                        Bytes(gone) + f.bytes - f0.bytes, |gone|)
        invariant t == More(gone, DropWhile(flows[i].queue, flows[i].codel, f, now))
        decreases |flows[i].queue|
      {
        ghost var s1, x := Abstract(), Bytes(gone) + f.bytes - f0.bytes;
        ghost var q, v := flows[i].queue, flows[i].codel;
        DropWhileStep(gone, q, v, f, now);
        BytesSnoc(gone, f);
        var next := DropOne(i, now);
        ghost var v1 := v.(count := v.count + 1);
        if next.None? {
          ChangedTwice(s0, i, q, v, x, |gone|, [], v1, 0, 1);
          return None;
        }
        ghost var v2 := AfterDrop(v1, q[0], now);
        ChangedTwice(s0, i, q, v, x, |gone|, q[1..], v2, q[0].bytes, 1);
        ChangedFlow(s1, i, q[1..], v2, q[0].bytes, 1);
        assert flows[i] == Abstract().flows[i];
        gone, f := gone + [f], next.value;
      }
      DropWhileEnds(gone, flows[i].queue, flows[i].codel, f, now);
      BytesOne(f);
      return Some(f);
    }

    /** codel_dequeue when it enters the dropping state. */
    method EnterDrop(i: nat, f0: Frame, now: nat) returns (out: Option<Frame>)
      requires i < flows.Length == backlogs.Length
      modifies flows, backlogs, this`limit, this`drops
      ensures var t := EnterDropping(old(flows[i].queue), old(flows[i].codel), f0, now);
              && out == t.out
              && Abstract() == Changed(old(Abstract()), i, t.queue, t.codel,
                   Bytes(t.dropped) + Bytes(OutSeq(t.out)) - f0.bytes, |t.dropped|)
    {
      hide Bytes, Entered;
      BytesOne(f0);
      var v := flows[i].codel;
      v := v.(count := v.count + 1);
      SetCodel(i, v, true);
      out := DequeueFrame(i);
      if out.Some? {
        BytesOne(out.value);
        v := StartDropping(flows[i].codel, out.value, now);
        SetCodel(i, v, false);
      }
    }

    /** The state variables at the start of a dropping state. */
    method StartDropping(v: Codel, f: Frame, now: nat) returns (w: Codel)
      ensures w == Entered(v, f, now)
    {
      w := ShouldDrop(v, f, now).codel.(dropping := true);
      if Delay(f, now) < INTERVAL {
        w := w.(count := if w.count > 2 then w.count - 2 else 1);
      } else {
        w := w.(count := 1);
      }
      w := w.(dropNext := now + INTERVAL / w.count);
    }

    /** codel_dequeue. */
    method TakeFrame(i: nat, now: nat) returns (out: Option<Frame>)
      requires i < flows.Length == backlogs.Length
      modifies flows, backlogs, this`limit, this`drops
      ensures var t := CodelDequeue(old(flows[i].queue), old(flows[i].codel), now);
              out == t.out && Abstract() == AfterCodel(old(Abstract()), i, t)
    {
      hide Bytes, DropWhile, EnterDropping, ShouldDrop, Changed, AfterCodel;
      ghost var s0, q, v0 := Abstract(), flows[i].queue, flows[i].codel;
      ChangedFlow(s0, i, q, v0, 0, 0);
      var first := DequeueFrame(i);
      if first.None? {
        BytesOne(Frame(0, 0));
        CodelIsChanged(s0, i, Taken([], v0, [], None));
        return None;
      }
      var f := first.value;
      BytesOne(f);
      ChangedFlow(s0, i, q[1..], v0, f.bytes, 0);
      assert flows[i] == Abstract().flows[i];
      var d := ShouldDrop(flows[i].codel, f, now);
      SetCodel(i, d.codel, false);
      ChangedTwice(s0, i, q[1..], v0, f.bytes, 0, q[1..], d.codel, 0, 0);
      ChangedFlow(s0, i, q[1..], d.codel, f.bytes, 0);
      assert flows[i] == Abstract().flows[i];
      ghost var t := CodelDequeue(q, v0, now);
      if flows[i].codel.dropping && !d.drop {
        SetCodel(i, flows[i].codel.(dropping := false), false);
        ChangedTwice(s0, i, q[1..], d.codel, f.bytes, 0, t.queue, t.codel, 0, 0);
        out := Some(f);
      } else if d.drop {
        if flows[i].codel.dropping {
          out := DropLoop(i, f, now);
        } else {
          out := EnterDrop(i, f, now);
        }
        ChangedTwice(s0, i, q[1..], d.codel, f.bytes, 0, t.queue, t.codel,
                     Bytes(t.dropped) + Bytes(OutSeq(t.out)) - f.bytes, |t.dropped|);
      } else {
        out := Some(f);
      }
      CodelIsChanged(s0, i, t);
    }

    /** fqcodel_dequeue; clock(k) is the time read in the k-th turn. It always ends, and
        returns NULL only when no flow has a frame left. */
    method Dequeue(clock: nat -> nat) returns (out: Option<Frame>)
      requires Valid()
      modifies this, flows, backlogs
      ensures Valid()
      ensures var r := FqCodel.Dequeue(old(Abstract()), clock, 0);
              && Abstract() == r.sched
              && out == if r.turn.Sent? then Some(r.turn.frame) else None
      ensures out.None? ==> limit == 0 && forall j :: 0 <= j < flows.Length ==> flows[j].queue == []
    {
      var k, turn := 0, Idle;
      ghost var s0 := Abstract();
      out := None;
      while true
        invariant Valid()
        invariant FqCodel.Dequeue(s0, clock, 0) == FqCodel.Dequeue(Abstract(), clock, k)
        decreases |newFlows|, |oldFlows|, (OldInRange(Abstract()); Debt(flows[..], oldFlows))
      {
        hide TakeTurn, Inv;
        ghost var s := Abstract();
        TurnKeeps(s, clock(k));
        turn := OneTurn(clock(k));
        if turn.Sent? {
          return Some(turn.frame);
        } else if turn.Idle? {
          IdleMeansEmpty(s, clock(k));
          assert forall j :: 0 <= j < flows.Length ==> flows[j] == Abstract().flows[j];
          return None;
        }
        TurnProgress(s, clock(k));
        k := k + 1;
      }
    }

    /** One turn of the loop of fqcodel_dequeue. */
    method OneTurn(now: nat) returns (turn: Turn)
      requires Valid()
      modifies this, flows, backlogs
      ensures flows.Length == backlogs.Length
      ensures Result(Abstract(), turn) == TakeTurn(old(Abstract()), now)
    {
      ghost var s := Abstract();
      if newFlows == [] && oldFlows == [] { return Idle; }
      var i := if newFlows != [] then newFlows[0] else oldFlows[0];
      HeadListed(s, i);
      assert flows[i] == s.flows[i];
      hide CodelDequeue, Inv;
      if flows[i].credits <= 0 {
        Credit(i, QUANTUM);
        MoveHead();
        return Granted(i);
      }
      hide AfterCodel, MoveToOld;
      var out := TakeFrame(i, now);
      ghost var s1 := Abstract();
      AfterCodelShape(s, i, CodelDequeue(s.flows[i].queue, s.flows[i].codel, now));
      if out.None? {
        if newFlows != [] && oldFlows != [] {
          MoveHead();
          return Moved(i);
        }
        UnlistHead();
        return Unlisted(i);
      }
      Credit(i, 0 - out.value.bytes);
      return Sent(i, out.value);
    }

    method Credit(i: nat, c: int)
      requires i < flows.Length
      modifies flows
      ensures Abstract() == AddCredits(old(Abstract()), i, c)
    {
      ghost var s := Abstract();
      flows[i] := flows[i].(credits := flows[i].credits + c);
      assert flows[..] == AddCredits(s, i, c).flows;
    }

    /** list_del_init of the first flow. */
    method UnlistHead()
      requires (newFlows != [] || oldFlows != []) && newFlowCount > 0
      modifies this`newFlows, this`oldFlows, this`newFlowCount
      ensures Abstract() == Unlist(old(Abstract()))
    {
      if newFlows != [] { newFlows := newFlows[1..]; } else { oldFlows := oldFlows[1..]; }
      newFlowCount := newFlowCount - 1;
    }

    /** list_move_tail of the first flow to the old flows. */
    method MoveHead()
      requires newFlows != [] || oldFlows != []
      modifies this`newFlows, this`oldFlows
      ensures Abstract() == MoveToOld(old(Abstract()))
    {
      if newFlows != [] {
        oldFlows, newFlows := oldFlows + [newFlows[0]], newFlows[1..];
      } else {
        oldFlows := oldFlows[1..] + [oldFlows[0]];
      }
    }

    /** fqcodel_peek. */
    method PeekFrame() returns (out: Option<Frame>)
      requires Valid()
      modifies this`newFlows, this`oldFlows
      ensures Valid() && Abstract() == Peek(old(Abstract()))
      ensures var h := HeadFlow(old(Abstract()));
              && (h.None? ==> out == None)
              && (h.Some? ==> h.value < flows.Length)
              && (h.Some? ==> out == if flows[h.value].queue == [] then None
                                     else Some(flows[h.value].queue[0]))
    {
      PeekKeeps(Abstract());
      if newFlows == [] && oldFlows == [] { return None; }
      var i := if newFlows != [] then newFlows[0] else oldFlows[0];
      HeadListed(Abstract(), i);
      hide Inv;
      if flows[i].queue == [] {
        MoveHead();
        return None;
      }
      return Some(flows[i].queue[0]);
    }

    /** The search of fqcodel_drop for a flow with the largest backlog. */
    method FindLargest() returns (idx: nat)
      requires backlogs.Length > 0
      requires NotNegative(backlogs[..])
      ensures idx == Largest(backlogs[..])
    {
      idx := 0;
      var max := 0;
      for i := 0 to backlogs.Length
        invariant idx < backlogs.Length
        invariant i == 0 ==> max == 0 && idx == 0
        invariant i > 0 ==> idx == Largest(backlogs[..i]) && max == backlogs[idx]
      {
        assert backlogs[..i + 1][..i] == backlogs[..i];
        assert backlogs[i] == backlogs[..][i];
        if backlogs[i] > max {
          max, idx := backlogs[i], i;
        }
      }
      assert backlogs[..backlogs.Length] == backlogs[..];
    }

    /** k times queue_dequeue. */
    method PopFrames(i: nat, k: nat) returns (dropped: nat)
      requires i < flows.Length && k <= |flows[i].queue|
      modifies flows
      ensures flows[..] == old(flows[..])[i := old(flows[i]).(queue := old(flows[i].queue)[k..])]
      ensures dropped == Bytes(old(flows[i].queue)[..k])
    {
      hide Bytes;
      ghost var q := flows[i].queue;
      dropped := 0;
      BytesOne(Frame(0, 0));
      assert q[..0] == [] && q[0..] == q;
      for n := 0 to k
        invariant flows[..] == old(flows[..])[i := old(flows[i]).(queue := q[n..])]
        invariant dropped == Bytes(q[..n])
      {
        assert flows[i] == flows[..][i];
        var f := flows[i].queue[0];
        BytesSnoc(q[..n], f);
        assert q[..n] + [f] == q[..n + 1] && q[n..][1..] == q[n + 1..];
        flows[i] := flows[i].(queue := flows[i].queue[1..]);
        dropped := dropped + f.bytes;
      }
    }

    /** fqcodel_drop, dropping k frames of the largest queue. */
    method DropFrames(k: nat)
      requires Valid() && flows.Length > 0
      requires k <= |flows[Largest(backlogs[..])].queue|
      modifies flows, backlogs, this`limit, this`drops
      ensures Valid() && Abstract() == DropHeads(old(Abstract()), k)
    {
      hide Inv, Largest, Bytes, NotNegative;
      ghost var s0 := Abstract();
      DropKeeps(s0, k);
      BacklogsNotNegative(s0);
      var idx := FindLargest();
      var dropped := PopFrames(idx, k);
      drops := drops + k;
      backlogs[idx] := backlogs[idx] - dropped;
      limit := limit - dropped;
      assert backlogs[..] == s0.backlogs[idx := s0.backlogs[idx] - dropped];
    }

    /** The first half of fqcodel_enqueue. */
    method AppendFrame(i: nat, f: Frame)
      requires i < flows.Length == backlogs.Length
      modifies this`limit, this`newFlows, this`newFlowCount, flows, backlogs
      ensures Abstract() == Append(old(Abstract()), i, f)
    {
      flows[i] := flows[i].(queue := flows[i].queue + [f]);
      backlogs[i] := backlogs[i] + f.bytes;
      limit := limit + f.bytes;
      if !(i in newFlows || i in oldFlows) {
        newFlows := newFlows + [i];
        newFlowCount := newFlowCount + 1;
        flows[i] := flows[i].(credits := QUANTUM);
      }
    }

    /** fqcodel_enqueue of a frame classified into flow i; k is how many frames go if that
        takes the flow over its share. */
    method Enqueue(i: nat, f: Frame, k: nat)
      requires Valid() && i < flows.Length <= QUEUE_SIZE
      requires var t := Append(Abstract(), i, f);
               t.listed > 0 && OverLimit(t, i) ==> 1 <= k <= |t.flows[Largest(t.backlogs)].queue|
      modifies this, flows, backlogs
      ensures Valid()
      ensures var t := Append(old(Abstract()), i, f);
              t.listed > 0 && Abstract() == if OverLimit(t, i) then DropHeads(t, k) else t
    {
      AppendKeeps(Abstract(), i, f);
      hide Inv, Largest, Append;
      AppendFrame(i, f);
      if backlogs[i] >= QUEUE_SIZE / newFlowCount {
        DropFrames(k);
      }
    }
  }

  ghost predicate NotNegative(ns: seq<int>) {
    forall j :: 0 <= j < |ns| ==> ns[j] >= 0
  }

  lemma BacklogsNotNegative(s: Sched)
    requires Inv(s)
    ensures NotNegative(s.backlogs)
  {
  }

  lemma CodelIsChanged(s: Sched, i: nat, t: Taken)
    requires i < |s.flows| && i < |s.backlogs|
    ensures AfterCodel(s, i, t)
         == Changed(s, i, t.queue, t.codel, Bytes(t.dropped) + Bytes(OutSeq(t.out)), |t.dropped|)
  {
  }

  ghost function More(gone: seq<Frame>, t: Taken): Taken {
    t.(dropped := gone + t.dropped)
  }

  lemma DropWhileStep(gone: seq<Frame>, q: seq<Frame>, v: Codel, f: Frame, now: nat)
    requires now > v.dropNext && v.dropping
    ensures var v1 := v.(count := v.count + 1);
            More(gone, DropWhile(q, v, f, now)) ==
            if q == [] then Taken([], v1, gone + [f], None)
            else More(gone + [f], DropWhile(q[1..], AfterDrop(v1, q[0], now), q[0], now))
  {
    hide AfterDrop;
    if q != [] {
      var t := DropWhile(q[1..], AfterDrop(v.(count := v.count + 1), q[0], now), q[0], now);
      assert gone + ([f] + t.dropped) == (gone + [f]) + t.dropped;
    }
  }

  lemma DropWhileEnds(gone: seq<Frame>, q: seq<Frame>, v: Codel, f: Frame, now: nat)
    requires !(now > v.dropNext && v.dropping)
    ensures More(gone, DropWhile(q, v, f, now)) == Taken(q, v, gone, Some(f))
  {
    assert gone + [] == gone;
  }

  lemma BytesOne(f: Frame)
    ensures Bytes([f]) == f.bytes && Bytes([]) == 0
  {
    assert [f][1..] == [];
  }

  lemma BytesSnoc(q: seq<Frame>, f: Frame)
    ensures Bytes(q + [f]) == Bytes(q) + f.bytes && Bytes([]) == 0
  {
    BytesAppend(q, [f]);
    BytesOne(f);
  }
}
