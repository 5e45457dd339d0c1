/** What CoDel promises (picoquic/fqCoDel.c), in terms of the frames it has looked at: a frame is
    discarded only after all frames have been late for an interval, and in the dropping state the
    discards keep to a schedule. */
module CodelLaw {

  import opened Varint
  import opened FqCodel

  /** A frame taken off its queue, and when. */
  datatype Look = Look(frame: Frame, now: nat)

  function Looks(fs: seq<Frame>, now: nat): seq<Look> {
    seq(|fs|, i requires 0 <= i < |fs| => Look(fs[i], now))
  }

  predicate IsLate(l: Look) {
    Delay(l.frame, l.now) >= TARGET
  }

  /** From look i on all frames were late, and the one before was not. */
  ghost predicate LateFrom(log: seq<Look>, i: nat) {
    && i <= |log| && (i > 0 ==> !IsLate(log[i - 1]))
    && forall j :: i <= j < |log| ==> IsLate(log[j])
  }

  /** The last frame looked at, and all since more than an interval before it, were late. */
  ghost predicate Ripe(log: seq<Look>) {
    exists i: nat :: RipeFrom(log, i)
  }

  ghost predicate RipeFrom(log: seq<Look>, i: nat) {
    i < |log| && LateFrom(log, i) && log[|log| - 1].now > log[i].now + INTERVAL
  }

  /** What CoDel remembers of the frames it has looked at. */
  ghost predicate Tracks(v: Codel, log: seq<Look>) {
    exists i: nat :: TracksFrom(v, log, i)
  }

  ghost predicate TracksFrom(v: Codel, log: seq<Look>, i: nat) {
    LateFrom(log, i) && v.firstAbove == if i == |log| then 0 else log[i].now + INTERVAL
  }

  lemma OneTail(log: seq<Look>, i: nat, j: nat)
    requires LateFrom(log, i) && LateFrom(log, j)
    ensures i == j
  {
  }

  /** One more frame: CoDel agrees to drop it exactly when it is ripe. */
  lemma LookTracks(v: Codel, log: seq<Look>, f: Frame, now: nat)
    requires Tracks(v, log)
    ensures var d, log' := ShouldDrop(v, f, now), log + [Look(f, now)];
            && Tracks(d.codel, log') && (d.drop <==> Ripe(log'))
            && d.codel == v.(firstAbove := d.codel.firstAbove)
  {
    var i: nat :| TracksFrom(v, log, i);
    var d, log' := ShouldDrop(v, f, now), log + [Look(f, now)];
    var k: nat := if IsLate(Look(f, now)) then i else |log'|;
    assert LateFrom(log', k);
    assert TracksFrom(d.codel, log', k);
    if Ripe(log') {
      var j: nat :| RipeFrom(log', j);
      OneTail(log', j, k);
    }
    if d.drop { assert RipeFrom(log', k); }
  }

  /** The k-th time from `next` on at which a frame is due to be discarded: the times are one
      interval divided by the number of discards apart. */
  function Due(next: nat, count: nat, k: nat): nat
    decreases k
  {
    if k == 0 then next else Due(next + Step(count), count + 1, k - 1)
  }

  /** The interval divided by the number of discards, one more than so far. */
  function Step(count: nat): nat {
    INTERVAL / (count + 1)
  }

  lemma {:induction false} DueAdds(next: nat, count: nat, j: nat, k: nat)
    ensures Due(Due(next, count, j), count + j, k) == Due(next, count, j + k)
    decreases j
  {
    if j > 0 { DueAdds(next + Step(count), count + 1, j - 1, k); }
  }

  lemma {:induction false} DueGrows(next: nat, count: nat, j: nat, k: nat)
    requires j <= k
    ensures Due(next, count, j) <= Due(next, count, k)
    decreases k
  {
    if k > 0 {
      DueNext(next, count, k);
      if j > 0 { DueNext(next, count, j); }
      hide Due;
      DueGrows(next + Step(count), count + 1, if j > 0 then j - 1 else 0, k - 1);
      DueFirst(next + Step(count), count + 1);
      DueFirst(next, count);
    }
  }

  lemma DueFirst(next: nat, count: nat)
    ensures Due(next, count, 0) == next
  {
  }

  lemma DueNext(next: nat, count: nat, k: nat)
    requires k > 0
    ensures Due(next, count, k) == Due(next + Step(count), count + 1, k - 1)
  {
  }

  /** The log once the first n frames of q have been looked at. */
  ghost function After(log: seq<Look>, q: seq<Frame>, n: nat, now: nat): seq<Look>
    requires n <= |q|
  {
    log + Looks(q[..n], now)
  }

  /** What a call in the dropping state does to the frames q, the first of them in hand and due
      or not: t.dropped are discarded, each ripe and past its time; then a frame is handed out
      because its time has not come, or because it is not ripe, which ends the state. */
  ghost predicate KeepsSchedule(t: Taken, v: Codel, q: seq<Frame>, log: seq<Look>, now: nat) {
    var n := |t.dropped|;
    && n <= |q| && t.codel.count == v.count + n
    && (forall k :: 0 <= k < n ==> Discarded(v.dropNext, v.count, q, log, now, k))
    && StopsAt(t, v, q, log, now, n)
  }

  /** The frame at k is ripe, and past its time. */
  ghost predicate Discarded(next: nat, count: nat, q: seq<Frame>, log: seq<Look>, now: nat, k: int) {
    0 <= k < |q| && now > Due(next, count, k) && Ripe(After(log, q, k + 1, now))
  }

  ghost predicate StopsAt(t: Taken, v: Codel, q: seq<Frame>, log: seq<Look>, now: nat, n: nat) {
    match t.out
    case None =>
      && n == |q| > 0 && t.codel.dropping && t.codel.dropNext == Due(v.dropNext, v.count, n - 1)
      && Tracks(t.codel, After(log, q, n, now))
    case Some(_) =>
      && n < |q| && Tracks(t.codel, After(log, q, n + 1, now))
      && (t.codel.dropping <==> Ripe(After(log, q, n + 1, now)))
      && (t.codel.dropping ==> now <= Due(v.dropNext, v.count, n) == t.codel.dropNext)
  }

  lemma TracksSame(v: Codel, w: Codel, log: seq<Look>)
    requires Tracks(v, log) && w.firstAbove == v.firstAbove
    ensures Tracks(w, log)
  {
    var i: nat :| TracksFrom(v, log, i);
    assert TracksFrom(w, log, i);
  }

  /** One discard more at the front of the schedule. */
  lemma ScheduleShift(t: Taken, v: Codel, w: Codel, f: Frame, q: seq<Frame>, log: seq<Look>, now: nat)
    requires KeepsSchedule(t, w, q, log + [Look(f, now)], now) && now > v.dropNext
    requires w.count == v.count + 1 && w.dropNext == v.dropNext + INTERVAL / (v.count + 1)
    requires Ripe(log + [Look(f, now)])
    ensures KeepsSchedule(t.(dropped := [f] + t.dropped), v, [f] + q, log, now)
  {
    var n := |t.dropped|;
    forall k | 0 <= k < n + 1 ensures Discarded(v.dropNext, v.count, [f] + q, log, now, k) {
      if k == 0 {
        FirstDiscarded(v, f, q, log, now);
      } else {
        assert Discarded(w.dropNext, w.count, q, log + [Look(f, now)], now, k - 1);
        DiscardedShift(v, w, f, q, log, now, k - 1);
      }
    }
    StopsShift(t, v, w, f, q, log, now, n);
    hide Discarded, StopsAt, Ripe;
  }

  lemma FirstDiscarded(v: Codel, f: Frame, q: seq<Frame>, log: seq<Look>, now: nat)
    requires now > v.dropNext && Ripe(log + [Look(f, now)])
    ensures Discarded(v.dropNext, v.count, [f] + q, log, now, 0)
  {
    hide Ripe;
    AfterOne(log, [f] + q, now);
  }

  lemma DiscardedShift(v: Codel, w: Codel, f: Frame, q: seq<Frame>, log: seq<Look>, now: nat, k: nat)
    requires w.count == v.count + 1 && w.dropNext == v.dropNext + INTERVAL / (v.count + 1)
    requires Discarded(w.dropNext, w.count, q, log + [Look(f, now)], now, k)
    ensures Discarded(v.dropNext, v.count, [f] + q, log, now, k + 1)
  {
    hide Ripe, After;
    AfterShift(log, f, q, k + 1, now);
  }

  lemma StopsShift(t: Taken, v: Codel, w: Codel, f: Frame, q: seq<Frame>, log: seq<Look>, now: nat, n: nat)
    requires w.count == v.count + 1 && w.dropNext == v.dropNext + INTERVAL / (v.count + 1)
    requires StopsAt(t, w, q, log + [Look(f, now)], now, n)
    ensures StopsAt(t.(dropped := [f] + t.dropped), v, [f] + q, log, now, n + 1)
  {
    hide Ripe, Tracks, After;
    AfterShift(log, f, q, n, now);
    if n < |q| { AfterShift(log, f, q, n + 1, now); }
  }

  lemma AfterShift(log: seq<Look>, f: Frame, q: seq<Frame>, k: nat, now: nat)
    requires k <= |q|
    ensures After(log, [f] + q, k + 1, now) == After(log + [Look(f, now)], q, k, now)
  {
    assert ([f] + q)[..k + 1] == [f] + q[..k];
  }

  lemma AfterOne(log: seq<Look>, q: seq<Frame>, now: nat)
    requires q != []
    ensures After(log, q, 1, now) == log + [Look(q[0], now)]
  {
  }

  lemma {:induction false} DropWhileSchedule(q: seq<Frame>, v: Codel, f: Frame, now: nat, log: seq<Look>)
    requires v.dropping && Tracks(v, log + [Look(f, now)]) && Ripe(log + [Look(f, now)])
    ensures KeepsSchedule(DropWhile(q, v, f, now), v, [f] + q, log, now)
    decreases |q|
  {
    hide Tracks, Ripe, After, ShouldDrop;
    var log1, v1 := log + [Look(f, now)], v.(count := v.count + 1);
    AfterOne(log, [f] + q, now);
    TracksSame(v, v1, log1);
    if now > v.dropNext && q != [] {
      LookTracks(v1, log1, q[0], now);
      var d, v2 := ShouldDrop(v1, q[0], now), AfterDrop(v1, q[0], now);
      TracksSame(d.codel, v2, log1 + [Look(q[0], now)]);
      assert [q[0]] + q[1..] == q;
      if d.drop {
        DropWhileSchedule(q[1..], v2, q[0], now, log1);
        ScheduleShift(DropWhile(q[1..], v2, q[0], now), v, v2, f, q, log, now);
      } else {
        AfterTwo(log, f, q, now);
      }
    }
  }

  lemma AfterTwo(log: seq<Look>, f: Frame, q: seq<Frame>, now: nat)
    requires q != []
    ensures After(log, [f] + q, 2, now) == log + [Look(f, now)] + [Look(q[0], now)]
  {
    assert ([f] + q)[..2] == [f, q[0]];
  }

  // ----------------------------------------------------------------------------------- one call

  /** The first frame of q has been taken and is handed out. */
  ghost predicate HandsOutFirst(t: Taken, q: seq<Frame>) {
    q != [] && t.dropped == [] && t.out == Some(q[0])
  }

  /** What a call does outside the dropping state: a ripe frame is discarded, just one, and if
      another follows, that one is handed out and the dropping state begins, with the next
      discard one interval, or part of it, from now. */
  ghost predicate StartsSchedule(t: Taken, v: Codel, q: seq<Frame>, now: nat) {
    && q != [] && t.dropped == [q[0]]
    && if |q| == 1 then t.out.None? && !t.codel.dropping && t.codel.count == v.count + 1
       else
         && t.out == Some(q[1]) && t.codel.dropping
         && t.codel.count == (if Delay(q[1], now) < INTERVAL && v.count > 1 then v.count - 1 else 1)
         && t.codel.dropNext == now + INTERVAL / t.codel.count
  }

  /** One call of codel_dequeue, exactly. */
  ghost predicate CallLaw(t: Taken, v: Codel, q: seq<Frame>, log: seq<Look>, now: nat) {
    && Tracks(t.codel, log + Looks(t.dropped + OutSeq(t.out), now))
    && if q == [] then t == Taken([], v, [], None)
       else
         var ripe := Ripe(log + [Look(q[0], now)]);
         if !ripe then
           && HandsOutFirst(t, q) && !t.codel.dropping
           && t.codel.count == v.count && t.codel.dropNext == v.dropNext
         else if v.dropping then KeepsSchedule(t, v, q, log, now)
         else StartsSchedule(t, v, q, now)
  }

  lemma RipeOnly(t: Taken, v: Codel, q: seq<Frame>, log: seq<Look>, now: nat, k: nat)
    requires CallLaw(t, v, q, log, now) && k < |t.dropped|
    ensures k < |q| && Ripe(After(log, q, k + 1, now))
  {
    hide Ripe, Tracks;
    if q != [] {
      AfterOne(log, q, now);
      if v.dropping && Ripe(log + [Look(q[0], now)]) {
        assert Discarded(v.dropNext, v.count, q, log, now, k);
      }
    }
  }

  lemma TakenIs(q: seq<Frame>, v: Codel, now: nat)
    ensures var t := CodelDequeue(q, v, now);
            && |t.dropped| + |OutSeq(t.out)| <= |q|
            && t.dropped + OutSeq(t.out) == q[..|t.dropped| + |OutSeq(t.out)|]
  {
    CodelConserves(q, v, now);
    hide CodelDequeue;
  }

  lemma CallUnripe(q: seq<Frame>, v: Codel, now: nat, log: seq<Look>)
    requires Tracks(v, log) && q != [] && !ShouldDrop(v, q[0], now).drop
    ensures CallLaw(CodelDequeue(q, v, now), v, q, log, now)
  {
    hide Tracks, Ripe, ShouldDrop;
    var t, f := CodelDequeue(q, v, now), q[0];
    LookTracks(v, log, f, now);
    TracksSame(ShouldDrop(v, f, now).codel, t.codel, log + [Look(f, now)]);
    assert [] + [f] == [f] && Looks([f], now) == [Look(f, now)];
  }

  lemma CallOnSchedule(q: seq<Frame>, v: Codel, now: nat, log: seq<Look>)
    requires Tracks(v, log) && q != [] && ShouldDrop(v, q[0], now).drop && v.dropping
    ensures CallLaw(CodelDequeue(q, v, now), v, q, log, now)
  {
    hide Tracks, Ripe, ShouldDrop, DropWhile;
    var t, d := CodelDequeue(q, v, now), ShouldDrop(v, q[0], now);
    LookTracks(v, log, q[0], now);
    DropWhileSchedule(q[1..], d.codel, q[0], now, log);
    assert [q[0]] + q[1..] == q;
    assert t == DropWhile(q[1..], d.codel, q[0], now);
    hide CodelDequeue;
    assert KeepsSchedule(t, v, q, log, now);
    TakenIs(q, v, now);
  }

  lemma CallStarts(q: seq<Frame>, v: Codel, now: nat, log: seq<Look>)
    requires Tracks(v, log) && q != [] && ShouldDrop(v, q[0], now).drop && !v.dropping
    ensures CallLaw(CodelDequeue(q, v, now), v, q, log, now)
  {
    hide Tracks, Ripe;
    var d := ShouldDrop(v, q[0], now);
    LookTracks(v, log, q[0], now);
    StartTracks(q, d.codel, now, log);
  }

  /** So it is for every call, whatever CoDel has looked at before. */
  lemma CodelCall(q: seq<Frame>, v: Codel, now: nat, log: seq<Look>)
    requires Tracks(v, log)
    ensures CallLaw(CodelDequeue(q, v, now), v, q, log, now)
  {
    if q == [] {
      assert log + Looks([], now) == log && [] + OutSeq(None) == [];
    } else {
      hide *;
      if !ShouldDrop(v, q[0], now).drop {
        CallUnripe(q, v, now, log);
      } else if v.dropping {
        CallOnSchedule(q, v, now, log);
      } else {
        CallStarts(q, v, now, log);
      }
    }
  }

  lemma StartTracks(q: seq<Frame>, v: Codel, now: nat, log: seq<Look>)
    requires q != [] && Tracks(v, log + [Look(q[0], now)])
    ensures var t := EnterDropping(q[1..], v, q[0], now);
            Tracks(t.codel, log + Looks(t.dropped + OutSeq(t.out), now))
  {
    hide Tracks, ShouldDrop;
    var t, log1, v1 := EnterDropping(q[1..], v, q[0], now), log + [Look(q[0], now)], v.(count := v.count + 1);
    TracksSame(v, v1, log1);
    if |q| == 1 {
      assert [q[0]] + [] == [q[0]] && Looks([q[0]], now) == [Look(q[0], now)];
    } else {
      LookTracks(v1, log1, q[1], now);
      TracksSame(ShouldDrop(v1, q[1], now).codel, t.codel, log1 + [Look(q[1], now)]);
      assert log + Looks([q[0]] + [q[1]], now) == log1 + [Look(q[1], now)];
    }
  }

  /** In the dropping state a ripe frame is discarded once the clock is past the scheduled time. */
  lemma OverdueIsDiscarded(q: seq<Frame>, v: Codel, now: nat, log: seq<Look>)
    requires Tracks(v, log) && v.dropping && now > v.dropNext && q != [] && Ripe(log + [Look(q[0], now)])
    ensures CodelDequeue(q, v, now).dropped != []
  {
    LookTracks(v, log, q[0], now);
    hide ShouldDrop, Ripe, Tracks;
  }

  /** A discard that empties the queue does not move the schedule on: the next ripe frame is
      discarded as soon as it is looked at. */
  lemma EmptiedStaysDue(q: seq<Frame>, v: Codel, now: nat, log: seq<Look>, q': seq<Frame>, now': nat)
    requires Tracks(v, log) && v.dropping && now <= now' && q != [] && q' != []
    requires Ripe(log + [Look(q[0], now)]) && CodelDequeue(q, v, now).out.None?
    requires Ripe(log + Looks(CodelDequeue(q, v, now).dropped, now) + [Look(q'[0], now')])
    ensures CodelDequeue(q', CodelDequeue(q, v, now).codel, now').dropped != []
  {
    hide CodelDequeue, Ripe, Tracks, Looks, CallLaw;
    var t := CodelDequeue(q, v, now);
    CodelCall(q, v, now, log);
    EmptiedState(t, v, q, log, now);
    OverdueIsDiscarded(q', t.codel, now', log + Looks(t.dropped, now));
  }

  lemma EmptiedState(t: Taken, v: Codel, q: seq<Frame>, log: seq<Look>, now: nat)
    requires CallLaw(t, v, q, log, now) && v.dropping && q != [] && t.out.None?
    requires Ripe(log + [Look(q[0], now)])
    ensures t.codel.dropping && now > t.codel.dropNext && Tracks(t.codel, log + Looks(t.dropped, now))
  {
    assert t.dropped + OutSeq(t.out) == t.dropped;
    hide Ripe, Tracks, Looks, After;
    assert Discarded(v.dropNext, v.count, q, log, now, |t.dropped| - 1);
  }
}
