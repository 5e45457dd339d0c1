/** The New Reno congestion controller (picoquic/newreno.c), on 64-bit words. */
module NewReno {
  import opened Varint

  const MAX_PACKET: nat := 1536
  const CWIN_INITIAL: nat := 10 * MAX_PACKET
  const CWIN_MINIMUM: nat := 2 * MAX_PACKET

  /** What is fixed while a notification is handled: the path's own measurements. */
  datatype Path = Path(inTransit: nat, mtu: nat, rtt: nat)

  datatype State = State(slowStart: bool, cwin: nat, residual: nat, ssthresh: nat, recovery: nat)

  /** The notifications. The slow-start exit decided from the samples of the round-trip time is
      part of the notification. */
  datatype Event =
    | Acked(bytes: nat)
    | Repeat(now: nat)
    | Timeout(now: nat)
    | Spurious(now: nat)
    | Rtt(leave: bool)

  function Since(now: nat, then_: nat): nat
    requires now < U64 && then_ < U64
  {
    if now >= then_ then now - then_ else U64 + now - then_
  }

  /** picoquic_newreno_init. */
  function Init(): State {
    State(true, CWIN_INITIAL, 0, U64 - 1, 0)
  }

  /** picoquic_newreno_enter_recovery. */
  function EnterRecovery(s: State, timeout: bool, now: nat): State {
    var half := if s.cwin / 2 < CWIN_MINIMUM then CWIN_MINIMUM else s.cwin / 2;
    State(timeout, if timeout then CWIN_MINIMUM else half, 0, half, now)
  }

  /** The bytes an acknowledgement adds to the window. */
  function Growth(s: State, p: Path, bytes: nat): nat
    requires s.cwin > 0
  {
    if s.slowStart then (if s.cwin <= Wrap(p.inTransit + bytes) then bytes else 0)
    else Wrap(bytes * p.mtu + s.residual) / s.cwin
  }

  function Acknowledge(s: State, p: Path, bytes: nat): State
    requires s.cwin > 0
  {
    var cwin := Wrap(s.cwin + Growth(s, p, bytes));
    if s.slowStart then
      if s.cwin <= Wrap(p.inTransit + bytes) then s.(cwin := cwin, slowStart := cwin < s.ssthresh) else s
    else s.(cwin := cwin, residual := Wrap(bytes * p.mtu + s.residual) % s.cwin)
  }

  ghost predicate Words(s: State, e: Event) {
    && s.cwin < U64 && s.residual < U64 && s.ssthresh < U64 && s.recovery < U64
    && match e
       case Acked(bytes) => bytes < U64
       case Rtt(_) => true
       case _ => e.now < U64
  }

  /** picoquic_newreno_notify. */
  function Notify(s: State, p: Path, e: Event): State
    requires Words(s, e) && s.cwin > 0
  {
    match e
    case Acked(bytes) => Acknowledge(s, p, bytes)
    case Repeat(now) => if Since(now, s.recovery) > p.rtt then EnterRecovery(s, false, now) else s
    case Timeout(now) => if Since(now, s.recovery) > p.rtt then EnterRecovery(s, true, now) else s
    case Spurious(now) =>
      if Since(now, s.recovery) < p.rtt && s.cwin < Wrap(2 * s.ssthresh) then
        s.(cwin := Wrap(2 * s.ssthresh), slowStart := false)
      else s
    case Rtt(leave) =>
      if s.slowStart && s.ssthresh == U64 - 1 && leave then s.(slowStart := false) else s
  }

  /** The window is at least two packets, and the residue is less than it. */
  ghost predicate Sane(s: State) {
    && CWIN_MINIMUM <= s.cwin < U64 && s.residual < s.cwin
    && s.ssthresh < U64 && s.recovery < U64
  }

  /** The window would pass 2^64. */
  predicate Overflows(s: State, p: Path, e: Event)
    requires s.cwin > 0
  {
    e.Acked? && s.cwin + Growth(s, p, e.bytes) >= U64
  }

  lemma InitSane()
    ensures Sane(Init())
  {
  }

  lemma GrowthIsWord(s: State, p: Path, bytes: nat)
    requires s.cwin > 0 && bytes < U64
    ensures Growth(s, p, bytes) < U64
  {
    Quotient(Wrap(bytes * p.mtu + s.residual), s.cwin);
  }

  /** Window and residue after an acknowledgement. */
  lemma AckedState(s: State, p: Path, bytes: nat)
    requires Sane(s) && bytes < U64
    ensures var t := Acknowledge(s, p, bytes);
            && t.cwin == Wrap(s.cwin + Growth(s, p, bytes)) && t.residual < s.cwin
            && t.ssthresh == s.ssthresh && t.recovery == s.recovery
  {
    hide Wrap;
    if !s.slowStart { Remains(Wrap(bytes * p.mtu + s.residual), s.cwin); }
  }

  lemma Remains(a: nat, b: nat)
    requires b > 0
    ensures a % b < b
  {
  }

  /** A notification keeps the controller sane and an acknowledgement never shrinks the window,
      exactly when the addition to the window does not overflow. */
  lemma NotifyIff(s: State, p: Path, e: Event)
    requires Sane(s) && Words(s, e)
    ensures (Sane(Notify(s, p, e)) && (e.Acked? ==> Notify(s, p, e).cwin >= s.cwin))
            <==> !Overflows(s, p, e)
  {
    if e.Acked? {
      hide Growth, Acknowledge, Wrap;
      GrowthIsWord(s, p, e.bytes);
      AckedState(s, p, e.bytes);
      WrapAdd(s.cwin, Growth(s, p, e.bytes));
    }
  }

  /** A sum of two words shrinks exactly when it wraps around. */
  lemma WrapAdd(a: nat, b: nat)
    requires a < U64 && b < U64
    ensures Wrap(a + b) == if a + b < U64 then a + b else a + b - U64
  {
  }

  lemma Modulo(a: nat, b: nat)
    requires b > 0
    ensures a % b < b && a == a / b * b + a % b
  {
  }

  lemma Quotient(a: nat, b: nat)
    requires b > 0
    ensures a / b <= a
  {
    Modulo(a, b);
    MulUp(a / b, 1, b);
  }

  lemma MulUp(x: nat, y: nat, z: nat)
    requires y <= z
    ensures x * y <= x * z
  {
    assert x * z == x * y + x * (z - y);
  }

  /** Every run without overflow is sane throughout. */
  ghost predicate IsRun(ss: seq<State>, ps: seq<Path>, es: seq<Event>) {
    && |ss| == |es| + 1 == |ps| + 1 && ss[0] == Init()
    && forall k :: 0 <= k < |es| ==> Step(ss[k], ps[k], es[k], ss[k + 1])
  }

  ghost predicate Step(s: State, p: Path, e: Event, s': State) {
    Sane(s) ==> Words(s, e) && !Overflows(s, p, e) && s' == Notify(s, p, e)
  }

  lemma {:induction false} RunSane(ss: seq<State>, ps: seq<Path>, es: seq<Event>, k: nat)
    requires IsRun(ss, ps, es) && k <= |es|
    ensures Sane(ss[k])
  {
    if k == 0 {
      InitSane();
    } else {
      var j: nat := k - 1;
      RunSane(ss, ps, es, j);
      assert Step(ss[j], ps[j], es[j], ss[j + 1]);
      NotifyIff(ss[j], ps[j], es[j]);
    }
  }

  /** A spurious repeat never shrinks the window. Within a round trip it makes it the larger of the
      window and twice the threshold exactly when that is a word; later it changes nothing. */
  lemma SpuriousIff(s: State, p: Path, now: nat)
    requires Sane(s) && now < U64
    ensures var t := Notify(s, p, Spurious(now));
            && s.cwin <= t.cwin < U64
            && (Since(now, s.recovery) < p.rtt ==>
                  (t.cwin == (if s.cwin < 2 * s.ssthresh then 2 * s.ssthresh else s.cwin)
                   <==> 2 * s.ssthresh < U64))
            && (Since(now, s.recovery) >= p.rtt ==> t == s)
  {
  }

  /** n acknowledgements of the same number of bytes. */
  ghost function AckTimes(s: State, p: Path, bytes: nat, n: nat): State {
    if n == 0 then s
    else
      var t := AckTimes(s, p, bytes, n - 1);
      if t.cwin > 0 && Words(t, Acked(bytes)) then Notify(t, p, Acked(bytes)) else t
  }

  lemma AckSmall(s: State, p: Path, bytes: nat)
    requires Sane(s) && !s.slowStart && bytes < U64 && bytes * p.mtu + s.residual < U64
    ensures var x, t := bytes * p.mtu + s.residual, Notify(s, p, Acked(bytes));
            && (x < s.cwin ==> t == s.(residual := x))
            && (x == s.cwin ==> t == s.(cwin := Wrap(s.cwin + 1), residual := 0))
  {
    var x := Cost(bytes, p.mtu, s.residual);
    NotifyWraps(s, p, bytes);
    hide Notify, Share, Rest;
    if x <= s.cwin { Divided(x, s.cwin); }
  }

  lemma NotifyWraps(s: State, p: Path, bytes: nat)
    requires Sane(s) && !s.slowStart && bytes < U64
    ensures var x := Wrap(Cost(bytes, p.mtu, s.residual));
            Notify(s, p, Acked(bytes))
            == s.(cwin := Wrap(s.cwin + Share(x, s.cwin)), residual := Rest(x, s.cwin))
  {
  }

  lemma Divided(x: nat, c: nat)
    requires 0 < c && x <= c
    ensures Share(x, c) == (if x < c then 0 else 1) && Rest(x, c) == if x < c then x else 0
  {
  }

  /** In congestion avoidance they add up, until their worth is the window. */
  lemma {:induction false} AckTimesAdds(s: State, p: Path, bytes: nat, n: nat)
    requires Sane(s) && !s.slowStart && s.residual == 0 && bytes < U64 && bytes * p.mtu > 0
    requires n * (bytes * p.mtu) <= s.cwin
    ensures AckTimes(s, p, bytes, n) == if n * (bytes * p.mtu) < s.cwin
                                        then s.(residual := n * (bytes * p.mtu))
                                        else s.(cwin := Wrap(s.cwin + 1), residual := 0)
  {
    if n > 0 {
      var worth := bytes * p.mtu;
      assert n * worth == (n - 1) * worth + worth;
      AckTimesAdds(s, p, bytes, n - 1);
      AckSmall(s.(residual := (n - 1) * worth), p, bytes);
    }
  }

  /** It is not before the first loss, when the threshold is all ones. A repeat reported as
      spurious there, within one round trip of the clock's zero, makes the window 2^64 - 2; and
      from there acknowledgements of ordinary packets on paths of ordinary packet sizes, if there
      are enough of them, make it zero. */
  lemma WindowCanCollapse(p: Path, now: nat, p1: Path, p2: Path)
    requires now < p.rtt && now < U64 && p1.mtu == 1022 && p2.mtu == 1285
    ensures var blown := Notify(Init(), p, Spurious(now));
            && blown == State(false, U64 - 2, 0, U64 - 1, 0)
            && var full := AckTimes(blown, p1, 889, (U64 - 2) / (889 * 1022));
               && full == State(false, U64 - 1, 0, U64 - 1, 0)
               && AckTimes(full, p2, 51, (U64 - 1) / (51 * 1285)).cwin == 0
  {
    var blown, full := State(false, U64 - 2, 0, U64 - 1, 0), State(false, U64 - 1, 0, U64 - 1, 0);
    AckTimesAdds(blown, p1, 889, (U64 - 2) / (889 * 1022));
    AckTimesAdds(full, p2, 51, (U64 - 1) / (51 * 1285));
  }

  // ------------------------------------------------------------------- runs bounded by their input

  /** The window a run can reach: the initial one and, for every acknowledged byte, at most the
      packet size. */
  function Reach(mtu: nat, acked: nat): nat {
    CWIN_INITIAL + mtu * acked
  }

  ghost predicate Within(s: State, limit: nat) {
    Sane(s) && s.cwin <= limit && (s.ssthresh == U64 - 1 || 2 * s.ssthresh <= limit)
  }

  /** A notification with packets of at most mtu bytes; none that reports a repeat as spurious
      within a round trip of the last recovery while the threshold is still all ones, which is
      before the first loss and within a round trip of the clock's zero. */
  ghost predicate Ordinary(s: State, p: Path, e: Event, mtu: nat) {
    && p.mtu <= mtu
    && (e.Spurious? && e.now < U64 && s.recovery < U64 && Since(e.now, s.recovery) < p.rtt ==>
          s.ssthresh != U64 - 1)
  }

  function Bytes(e: Event): nat {
    if e.Acked? then e.bytes else 0
  }

  /** An acknowledgement adds at most its bytes times the packet size. */
  lemma GrowthBound(s: State, p: Path, bytes: nat, mtu: nat)
    requires Sane(s) && p.mtu <= mtu && mtu > 0
    ensures Growth(s, p, bytes) <= mtu * bytes
  {
    if s.slowStart {
      MulUp(bytes, 1, mtu);
    } else {
      var x := Wrap(bytes * p.mtu + s.residual);
      WrapDown(bytes * p.mtu + s.residual);
      MulUp(bytes, p.mtu, mtu);
      QuotientUp(x, mtu * bytes, s.cwin);
    }
  }

  lemma QuotientUp(x: nat, y: nat, c: nat)
    requires c > 0 && x < y + c
    ensures x / c <= y
  {
    Modulo(x, c);
    if x / c > y {
      MulUp(c, y + 1, x / c);
      MulUp(y, 1, c);
    }
  }

  lemma OrdinaryStep(s: State, p: Path, e: Event, mtu: nat, limit: nat)
    requires CWIN_INITIAL <= limit && limit + mtu * Bytes(e) < U64 && mtu > 0
    requires Within(s, limit) && Words(s, e) && Ordinary(s, p, e, mtu)
    ensures Within(Notify(s, p, e), limit + mtu * Bytes(e))
  {
    if e.Acked? { GrowthBound(s, p, e.bytes, mtu); }
    NotifyIff(s, p, e);
  }

  /** The bytes acknowledged by the first k notifications. */
  function Acks(es: seq<Event>, k: nat): nat
    requires k <= |es|
  {
    if k == 0 then 0 else Acks(es, k - 1) + Bytes(es[k - 1])
  }

  ghost predicate InputStep(s: State, p: Path, e: Event, mtu: nat, s': State) {
    Sane(s) ==> Words(s, e) && Ordinary(s, p, e, mtu) && s' == Notify(s, p, e)
  }

  ghost predicate IsInputRun(ss: seq<State>, ps: seq<Path>, es: seq<Event>, mtu: nat) {
    && |ss| == |es| + 1 == |ps| + 1 && ss[0] == Init()
    && forall k :: 0 <= k < |es| ==> InputStep(ss[k], ps[k], es[k], mtu, ss[k + 1])
  }

  /** Over every run in which the packet size times the acknowledged bytes, and the initial
      window, make a word, the window stays within that and nothing overflows. */
  lemma {:induction false} RunWithin(ss: seq<State>, ps: seq<Path>, es: seq<Event>, mtu: nat, k: nat)
    requires IsInputRun(ss, ps, es, mtu) && mtu > 0 && k <= |es| && Reach(mtu, Acks(es, k)) < U64
    ensures Within(ss[k], Reach(mtu, Acks(es, k)))
  {
    if k > 0 {
      var j: nat := k - 1;
      assert mtu * Acks(es, k) == mtu * Acks(es, j) + mtu * Bytes(es[j]);
      RunWithin(ss, ps, es, mtu, j);
      assert InputStep(ss[j], ps[j], es[j], mtu, ss[j + 1]);
      OrdinaryStep(ss[j], ps[j], es[j], mtu, Reach(mtu, Acks(es, j)));
    }
  }

  // ------------------------------------------------------------------------ congestion avoidance

  function Sum(bs: seq<nat>): nat {
    if bs == [] then 0 else bs[0] + Sum(bs[1..])
  }

  function Cost(bytes: nat, mtu: nat, residual: nat): nat {
    bytes * mtu + residual
  }

  /** The whole bytes of growth that delta pays for, and what it leaves. */
  function Share(delta: nat, cwin: nat): nat
    requires cwin > 0
  {
    delta / cwin
  }

  function Rest(delta: nat, cwin: nat): nat
    requires cwin > 0
  {
    delta % cwin
  }

  lemma ShareRest(delta: nat, cwin: nat)
    requires cwin > 0
    ensures Rest(delta, cwin) < cwin && delta == Share(delta, cwin) * cwin + Rest(delta, cwin)
  {
  }

  /** Window and residue after acknowledgements of bs bytes in congestion avoidance. */
  function Avoid(cwin: nat, residual: nat, mtu: nat, bs: seq<nat>): (nat, nat)
    requires cwin > 0
    decreases |bs|
  {
    if bs == [] then (cwin, residual)
    else
      var delta := Cost(bs[0], mtu, residual);
      Avoid(cwin + Share(delta, cwin), Rest(delta, cwin), mtu, bs[1..])
  }

  lemma {:induction false} AvoidGrows(cwin: nat, residual: nat, mtu: nat, bs: seq<nat>)
    requires 0 < cwin && residual < cwin
    ensures var (c, r) := Avoid(cwin, residual, mtu, bs); c >= cwin && r < c
    decreases |bs|
  {
    if bs != [] {
      var delta: nat := Cost(bs[0], mtu, residual);
      ShareRest(delta, cwin);
      AvoidGrows(cwin + Share(delta, cwin), Rest(delta, cwin), mtu, bs[1..]);
    }
  }

  /** `paid` covers the residue and each byte of growth at a price between low and high. */
  ghost predicate Balanced(low: nat, high: nat, growth: nat, r: nat, paid: nat) {
    low * growth + r <= paid <= high * growth + r
  }

  lemma BalanceStep(low: nat, high: nat, cwin: nat, q: nat, more: nat, delta: nat, rem: nat,
                    rest: nat, r: nat)
    requires low <= cwin <= high && delta == q * cwin + rem
    requires Balanced(low, high, more, r, rest + rem)
    ensures Balanced(low, high, q + more, r, rest + delta)
  {
    MulUp(q, low, cwin);
    MulUp(q, cwin, high);
    assert low * (q + more) == q * low + low * more && high * (q + more) == q * high + high * more;
  }

  lemma Paid(low: nat, high: nat, cwin: nat, q: nat, c: nat, delta: nat, rem: nat, rest: nat,
             all: nat, r: nat)
    requires low <= cwin <= high && delta == q * cwin + rem && cwin + q <= c && all == rest + delta
    requires Balanced(low, high, c - (cwin + q), r, rest + rem)
    ensures Balanced(low, high, c - cwin, r, all)
  {
    BalanceStep(low, high, cwin, q, c - (cwin + q), delta, rem, rest, r);
  }

  /** What a list of acknowledgements is worth. */
  function Worth(mtu: nat, bs: seq<nat>): nat {
    mtu * Sum(bs)
  }

  lemma WorthFirst(mtu: nat, bs: seq<nat>, residual: nat)
    requires bs != []
    ensures Worth(mtu, bs) + residual == Worth(mtu, bs[1..]) + Cost(bs[0], mtu, residual)
  {
  }

  /** The residue pays exactly: each byte of growth costs at least the smallest window and at
      most the largest one. */
  lemma {:induction false} AvoidBalance(low: nat, high: nat, cwin: nat, residual: nat, mtu: nat, bs: seq<nat>)
    requires 0 < low <= cwin && residual < cwin && Avoid(cwin, residual, mtu, bs).0 <= high
    ensures var (c, r) := Avoid(cwin, residual, mtu, bs);
            c >= cwin && Balanced(low, high, c - cwin, r, Worth(mtu, bs) + residual)
    decreases |bs|
  {
    AvoidGrows(cwin, residual, mtu, bs);
    if bs != [] {
      var delta := Cost(bs[0], mtu, residual);
      var q, rem := Share(delta, cwin), Rest(delta, cwin);
      var (c, r) := Avoid(cwin, residual, mtu, bs);
      hide Cost, Worth, Balanced, Share, Rest;
      assert Avoid(cwin + q, rem, mtu, bs[1..]) == (c, r);
      hide Avoid;
      WorthFirst(mtu, bs, residual);
      ShareRest(delta, cwin);
      AvoidBalance(low, high, cwin + q, rem, mtu, bs[1..]);
      Paid(low, high, cwin, q, c, delta, rem, Worth(mtu, bs[1..]), Worth(mtu, bs) + residual, r);
    }
  }

  lemma Below(w: nat, x: nat, y: nat, product: nat)
    requires y > 0 && product == (y - 1) * w && w * x < product + w
    ensures x < y
  {
    if x >= y {
      MulUp(w, y, x);
    }
  }

  /** Congestion avoidance: however at most a window of acknowledged bytes is split, the window
      grows by at most one packet; and it does grow, by the share due to those bytes less one. */
  lemma OnePacketPerWindow(cwin: nat, residual: nat, mtu: nat, bs: seq<nat>)
    requires 0 < cwin && residual < cwin && Sum(bs) <= cwin
    ensures var (c, r) := Avoid(cwin, residual, mtu, bs);
            && cwin <= c <= cwin + mtu && r < c
            && mtu * Sum(bs) < (cwin + mtu) * (c - cwin + 1)
  {
    AvoidGrows(cwin, residual, mtu, bs);
    var (c, r) := Avoid(cwin, residual, mtu, bs);
    AvoidBalance(cwin, c, cwin, residual, mtu, bs);
    MulUp(mtu, Sum(bs), cwin);
    Below(cwin, c - cwin, mtu + 1, mtu * cwin);
    MulUp(c - cwin + 1, c, cwin + mtu);
    assert c * (c - cwin + 1) == c * (c - cwin) + c;
    assert (c - cwin + 1) * c == c * (c - cwin + 1);
    assert (cwin + mtu) * (c - cwin + 1) == (c - cwin + 1) * (cwin + mtu);
  }

  /** One notification does one step of that, as long as the words are wide enough. */
  lemma AvoidIsNotify(s: State, p: Path, bytes: nat)
    requires Sane(s) && !s.slowStart && bytes < U64
    requires var delta := Cost(bytes, p.mtu, s.residual);
             delta < U64 && s.cwin + Share(delta, s.cwin) < U64
    ensures var delta, t := Cost(bytes, p.mtu, s.residual), Notify(s, p, Acked(bytes));
            && Sane(t) && !t.slowStart
            && t.cwin == s.cwin + Share(delta, s.cwin) && t.residual == Rest(delta, s.cwin)
  {
    ShareRest(Cost(bytes, p.mtu, s.residual), s.cwin);
  }

  /** The state after a list of acknowledgements. */
  ghost function AckAll(s: State, p: Path, bs: seq<nat>): State
    decreases |bs|
  {
    if bs == [] || s.cwin == 0 || !Words(s, Acked(bs[0])) then s
    else AckAll(Notify(s, p, Acked(bs[0])), p, bs[1..])
  }

  lemma CostUp(bytes: nat, mtu: nat, r: nat, limit: nat)
    requires r <= limit
    ensures Cost(bytes, mtu, r) <= Cost(bytes, mtu, limit)
  {
  }

  ghost predicate Fit(bs: seq<nat>, mtu: nat, limit: nat) {
    forall b :: b in bs ==> b < U64 && Cost(b, mtu, limit) < U64
  }

  lemma AckAllStep(s: State, p: Path, bs: seq<nat>)
    requires Sane(s) && bs != [] && bs[0] < U64
    ensures AckAll(s, p, bs) == AckAll(Notify(s, p, Acked(bs[0])), p, bs[1..])
  {
  }

  lemma AvoidStep(cwin: nat, residual: nat, mtu: nat, bs: seq<nat>)
    requires residual < cwin && bs != []
    ensures var delta := Cost(bs[0], mtu, residual);
            && Avoid(cwin, residual, mtu, bs)
               == Avoid(cwin + Share(delta, cwin), Rest(delta, cwin), mtu, bs[1..])
            && Avoid(cwin, residual, mtu, bs).0 >= cwin + Share(delta, cwin)
  {
    var delta := Cost(bs[0], mtu, residual);
    ShareRest(delta, cwin);
    AvoidGrows(cwin + Share(delta, cwin), Rest(delta, cwin), mtu, bs[1..]);
  }

  lemma {:induction false} AckAllIsAvoid(s: State, p: Path, bs: seq<nat>, limit: nat)
    requires Sane(s) && !s.slowStart && Avoid(s.cwin, s.residual, p.mtu, bs).0 <= limit < U64
    requires Fit(bs, p.mtu, limit)
    ensures var t := AckAll(s, p, bs);
            !t.slowStart && (t.cwin, t.residual) == Avoid(s.cwin, s.residual, p.mtu, bs)
    decreases |bs|
  {
    if bs != [] {
      assert bs[0] in bs && s.residual < s.cwin;
      forall b | b in bs[1..] ensures b in bs {}
      assert Fit(bs[1..], p.mtu, limit);
      AvoidGrows(s.cwin, s.residual, p.mtu, bs);
      hide *;
      CostUp(bs[0], p.mtu, s.residual, limit);
      AvoidStep(s.cwin, s.residual, p.mtu, bs);
      AvoidIsNotify(s, p, bs[0]);
      AckAllStep(s, p, bs);
      AckAllIsAvoid(Notify(s, p, Acked(bs[0])), p, bs[1..], limit);
    }
  }

  /** What is left of the budget for growth from window w by one packet. */
  ghost predicate InBudget(w: nat, mtu: nat, s: State, due: nat) {
    w <= s.cwin && w * (s.cwin - w) + s.residual + due < w * (mtu + 1)
  }

  lemma BudgetBound(w: nat, mtu: nat, s: State, due: nat)
    requires 0 < w && InBudget(w, mtu, s, due)
    ensures s.cwin <= w + mtu
  {
    Below(w, s.cwin - w, mtu + 1, mtu * w);
  }

  /** Growth and residue bought with x, no more than what was due for it. */
  lemma BudgetKept(w: nat, mtu: nat, s: State, t: State, x: nat, due: nat, rest: nat)
    requires 0 < w && InBudget(w, mtu, s, rest + due) && x <= s.residual + due && s.cwin > 0
    requires t.cwin == s.cwin + Share(x, s.cwin) && t.residual == Rest(x, s.cwin)
    ensures InBudget(w, mtu, t, rest)
  {
    var q := Share(x, s.cwin);
    ShareRest(x, s.cwin);
    MulUp(q, w, s.cwin);
    assert w * (t.cwin - w) == w * (s.cwin - w) + q * w;
  }

  lemma NotifyWords(s: State, p: Path, bytes: nat)
    requires Sane(s) && !s.slowStart && bytes < U64
    requires var x := Wrap(Cost(bytes, p.mtu, s.residual)); s.cwin + Share(x, s.cwin) < U64
    ensures var x := Wrap(Cost(bytes, p.mtu, s.residual));
            Notify(s, p, Acked(bytes))
            == s.(cwin := s.cwin + Share(x, s.cwin), residual := Rest(x, s.cwin))
  {
    NotifyWraps(s, p, bytes);
    hide Notify, Share, Rest;
  }

  /** One acknowledgement, also when the product of bytes and packet size wraps around. */
  lemma BudgetAck(w: nat, p: Path, s: State, bytes: nat, due: nat, rest: nat)
    requires Sane(s) && !s.slowStart && 0 < w && w + p.mtu < U64 && bytes < U64
    requires due == bytes * p.mtu && InBudget(w, p.mtu, s, rest + due)
    ensures var t := Notify(s, p, Acked(bytes)); Sane(t) && !t.slowStart && InBudget(w, p.mtu, t, rest)
  {
    var x := Wrap(Cost(bytes, p.mtu, s.residual));
    WrapDown(Cost(bytes, p.mtu, s.residual));
    var t := s.(cwin := s.cwin + Share(x, s.cwin), residual := Rest(x, s.cwin));
    assert x <= s.residual + due;
    hide InBudget, Notify, Cost, Wrap, Share, Rest;
    ShareRest(x, s.cwin);
    BudgetKept(w, p.mtu, s, t, x, due, rest);
    BudgetBound(w, p.mtu, t, rest);
    NotifyWords(s, p, bytes);
  }

  lemma WrapDown(x: nat)
    ensures Wrap(x) <= x
  {
  }

  lemma {:induction false} BudgetRun(w: nat, p: Path, s: State, bs: seq<nat>)
    requires Sane(s) && !s.slowStart && 0 < w && w + p.mtu < U64 && Sum(bs) < U64
    requires InBudget(w, p.mtu, s, p.mtu * Sum(bs))
    ensures w <= AckAll(s, p, bs).cwin <= w + p.mtu
    decreases |bs|
  {
    if bs == [] {
      BudgetBound(w, p.mtu, s, 0);
    } else {
      assert bs[0] <= Sum(bs);
      assert p.mtu * Sum(bs) == p.mtu * Sum(bs[1..]) + bs[0] * p.mtu;
      hide InBudget, Notify, Sum;
      BudgetAck(w, p, s, bs[0], bs[0] * p.mtu, p.mtu * Sum(bs[1..]));
      AckAllStep(s, p, bs);
      SumTail(bs);
      BudgetRun(w, p, Notify(s, p, Acked(bs[0])), bs[1..]);
    }
  }

  lemma SumTail(bs: seq<nat>)
    requires bs != []
    ensures Sum(bs) == bs[0] + Sum(bs[1..])
  {
  }

  lemma BudgetStart(s: State, mtu: nat, acked: nat)
    requires s.residual < s.cwin && acked <= s.cwin
    ensures InBudget(s.cwin, mtu, s, mtu * acked)
  {
    MulUp(mtu, acked, s.cwin);
    assert s.cwin * (mtu + 1) == mtu * s.cwin + s.cwin;
  }

  /** So it is for the controller itself: any split of at most one window of acknowledged bytes
      adds at most one packet, also when the product of the two wraps around, as long as a window
      one packet larger is a word. */
  lemma OnePacketPerWindowOfAcks(s: State, p: Path, bs: seq<nat>)
    requires Sane(s) && !s.slowStart && Sum(bs) <= s.cwin && s.cwin + p.mtu < U64
    ensures s.cwin <= AckAll(s, p, bs).cwin <= s.cwin + p.mtu
  {
    BudgetStart(s, p.mtu, Sum(bs));
    hide InBudget, Sum, AckAll;
    BudgetRun(s.cwin, p, s, bs);
  }

  // ----------------------------------------------------------------------------------- recovery

  /** A spurious repeat reported within one round trip of the loss gives the window back: to the
      byte exactly when it was even and not below twice the minimum. */
  lemma RecoveryUndone(s: State, p: Path, lost: nat, now: nat)
    requires Sane(s) && lost < U64 && now < U64
    requires Since(lost, s.recovery) > p.rtt && Since(now, lost) < p.rtt
    ensures var cut := Notify(s, p, Repeat(lost));
            var back := Notify(cut, p, Spurious(now));
            && Sane(cut) && cut.cwin == cut.ssthresh && !back.slowStart
            && (s.cwin >= 2 * CWIN_MINIMUM ==> cut.cwin == s.cwin / 2 && s.cwin - 1 <= back.cwin <= s.cwin)
            && (back.cwin == s.cwin <==> s.cwin % 2 == 0 && s.cwin >= 2 * CWIN_MINIMUM)
  {
  }

  // -------------------------------------------------------------------------- slow start and loss

  /** The state after acknowledgements on a path that changes. */
  ghost function AckPaths(s: State, ps: seq<Path>, bs: seq<nat>): State
    requires |ps| == |bs|
  {
    if bs == [] then s
    else
      var k := |bs| - 1;
      var t := AckPaths(s, ps[..k], bs[..k]);
      if t.cwin > 0 && Words(t, Acked(bs[k])) then Notify(t, ps[k], Acked(bs[k])) else t
  }

  /** All but the last. */
  function Front(bs: seq<nat>): seq<nat> {
    if bs == [] then [] else bs[..|bs| - 1]
  }

  lemma {:induction false} SumSnoc(bs: seq<nat>, b: nat)
    ensures Sum(bs + [b]) == Sum(bs) + b
  {
    if bs == [] {
      assert [] + [b] == [b] && [b][1..] == [];
    } else {
      SumSnoc(bs[1..], b);
      assert (bs + [b])[1..] == bs[1..] + [b];
    }
  }

  lemma SumFront(bs: seq<nat>)
    requires bs != []
    ensures Sum(bs) == Sum(Front(bs)) + bs[|bs| - 1]
  {
    SumSnoc(Front(bs), bs[|bs| - 1]);
    assert bs == Front(bs) + [bs[|bs| - 1]];
  }

  /** Each acknowledgement comes while the window, as large as it is by then, is in use. */
  ghost predicate Limited(cwin: nat, ps: seq<Path>, bs: seq<nat>)
    requires |ps| == |bs|
  {
    forall k :: 0 <= k < |bs| ==> InUse(cwin + Sum(bs[..k]), ps[k], bs[k])
  }

  ghost predicate InUse(cwin: nat, p: Path, bytes: nat) {
    cwin <= p.inTransit + bytes < U64
  }

  lemma LimitedFront(cwin: nat, ps: seq<Path>, bs: seq<nat>)
    requires |ps| == |bs| > 0 && Limited(cwin, ps, bs)
    ensures var k := |bs| - 1; Limited(cwin, ps[..k], bs[..k]) && InUse(cwin + Sum(bs[..k]), ps[k], bs[k])
  {
    var k := |bs| - 1;
    assert forall j :: 0 <= j < k ==> bs[..k][..j] == bs[..j];
  }

  /** Slow start adds every acknowledged byte to the window, and ends with the acknowledgement
      that takes the window to the threshold. */
  lemma {:induction false} SlowStartGrows(s: State, ps: seq<Path>, bs: seq<nat>)
    requires Sane(s) && s.slowStart && |ps| == |bs| > 0 && Limited(s.cwin, ps, bs)
    requires s.cwin + Sum(bs) < U64 && (|bs| > 1 ==> s.cwin + Sum(Front(bs)) < s.ssthresh)
    ensures AckPaths(s, ps, bs) == s.(cwin := s.cwin + Sum(bs), slowStart := s.cwin + Sum(bs) < s.ssthresh)
    decreases |bs|
  {
    var k := |bs| - 1;
    LimitedFront(s.cwin, ps, bs);
    SumFront(bs);
    if k > 0 {
      SumFront(Front(bs));
      hide Limited, Sum;
      SlowStartGrows(s, ps[..k], bs[..k]);
    } else {
      assert AckPaths(s, ps[..0], bs[..0]) == s;
    }
    hide Sum, Limited;
  }

  /** While the window is not in use, acknowledgements change nothing in slow start. */
  lemma {:induction false} UnusedWindowStays(s: State, ps: seq<Path>, bs: seq<nat>)
    requires Sane(s) && s.slowStart && |ps| == |bs|
    requires forall k :: 0 <= k < |bs| ==> ps[k].inTransit + bs[k] < s.cwin
    ensures AckPaths(s, ps, bs) == s
    decreases |bs|
  {
    if bs != [] {
      var k := |bs| - 1;
      assert ps[k].inTransit + bs[k] < s.cwin;
      UnusedWindowStays(s, ps[..k], bs[..k]);
    }
  }

  /** Half of the window, but not less than the minimum. */
  function Half(cwin: nat): nat {
    if cwin / 2 < CWIN_MINIMUM then CWIN_MINIMUM else cwin / 2
  }

  /** After a timeout more than a round trip after the last loss: the window restarts from the
      minimum and grows by every acknowledged byte up to half of what it was; the acknowledgement
      that reaches the half ends slow start, and from there on the window avoids congestion. */
  lemma AfterTimeout(s: State, p: Path, lost: nat, ps: seq<Path>, bs: seq<nat>, q: Path, cs: seq<nat>,
                     limit: nat)
    requires Sane(s) && lost < U64 && Since(lost, s.recovery) > p.rtt && |ps| == |bs| > 0
    requires Limited(CWIN_MINIMUM, ps, bs) && CWIN_MINIMUM + Sum(bs) < U64
    requires |bs| > 1 ==> CWIN_MINIMUM + Sum(Front(bs)) < Half(s.cwin)
    ensures var cut := Notify(s, p, Timeout(lost));
            var w, t := CWIN_MINIMUM + Sum(bs), AckPaths(cut, ps, bs);
            && cut == State(true, CWIN_MINIMUM, 0, Half(s.cwin), lost)
            && t == State(w < Half(s.cwin), w, 0, Half(s.cwin), lost)
            && (w >= Half(s.cwin) && Avoid(w, 0, q.mtu, cs).0 <= limit < U64 && Fit(cs, q.mtu, limit) ==>
                  var u := AckAll(t, q, cs);
                  !u.slowStart && (u.cwin, u.residual) == Avoid(w, 0, q.mtu, cs))
  {
    var cut, w := Notify(s, p, Timeout(lost)), CWIN_MINIMUM + Sum(bs);
    assert cut == State(true, CWIN_MINIMUM, 0, Half(s.cwin), lost);
    SlowStartGrows(cut, ps, bs);
    var t := AckPaths(cut, ps, bs);
    hide AckPaths, Limited, Sum, Notify;
    if w >= Half(s.cwin) && Avoid(w, 0, q.mtu, cs).0 <= limit < U64 && Fit(cs, q.mtu, limit) {
      hide Avoid, Fit, AckAll;
      AckAllIsAvoid(t, q, cs, limit);
    }
  }

  /** After a repeat: the window is halved and avoids congestion at once. */
  lemma AfterRepeat(s: State, p: Path, lost: nat, q: Path, cs: seq<nat>, limit: nat)
    requires Sane(s) && lost < U64 && Since(lost, s.recovery) > p.rtt
    requires Avoid(Half(s.cwin), 0, q.mtu, cs).0 <= limit < U64 && Fit(cs, q.mtu, limit)
    ensures var cut := Notify(s, p, Repeat(lost));
            && cut == State(false, Half(s.cwin), 0, Half(s.cwin), lost)
            && var u := AckAll(cut, q, cs);
               !u.slowStart && (u.cwin, u.residual) == Avoid(Half(s.cwin), 0, q.mtu, cs)
  {
    var cut := Notify(s, p, Repeat(lost));
    assert cut == State(false, Half(s.cwin), 0, Half(s.cwin), lost);
    hide Avoid, Fit, AckAll, Notify;
    AckAllIsAvoid(cut, q, cs, limit);
  }

  /** A loss that counts: more than a round trip after the one before. */
  ghost predicate IsLoss(s: State, p: Path, e: Event) {
    (e.Repeat? || e.Timeout?) && e.now < U64 && s.recovery < U64 && Since(e.now, s.recovery) > p.rtt
  }

  /** One cut per round trip: in every run, as long as no loss counts, whatever else is reported,
      the window does not shrink, and the start of the recovery stays. */
  lemma {:induction false} OneCutPerRoundTrip(ss: seq<State>, ps: seq<Path>, es: seq<Event>, a: nat, b: nat)
    requires IsRun(ss, ps, es) && a <= b <= |es|
    requires forall k :: a <= k < b ==> !IsLoss(ss[k], ps[k], es[k])
    ensures ss[a].cwin <= ss[b].cwin && ss[a].recovery == ss[b].recovery && ss[a].ssthresh == ss[b].ssthresh
    decreases b - a
  {
    if a < b {
      var j: nat := b - 1;
      OneCutPerRoundTrip(ss, ps, es, a, j);
      RunSane(ss, ps, es, j);
      assert Step(ss[j], ps[j], es[j], ss[j + 1]) && !IsLoss(ss[j], ps[j], es[j]);
      NoLossStep(ss[j], ps[j], es[j]);
    }
  }

  lemma NoLossStep(s: State, p: Path, e: Event)
    requires Sane(s) && Words(s, e) && !Overflows(s, p, e) && !IsLoss(s, p, e)
    ensures var t := Notify(s, p, e); s.cwin <= t.cwin && t.recovery == s.recovery && t.ssthresh == s.ssthresh
  {
    NotifyIff(s, p, e);
    if e.Acked? {
      hide Growth, Wrap;
    }
  }

  lemma {:induction false} UntilFirstLoss(ss: seq<State>, ps: seq<Path>, es: seq<Event>, k: nat)
    requires IsRun(ss, ps, es) && k <= |es|
    ensures ss[k].ssthresh == U64 - 1 <==> forall j :: 0 <= j < k ==> !IsLoss(ss[j], ps[j], es[j])
  {
    if k > 0 {
      var j: nat := k - 1;
      UntilFirstLoss(ss, ps, es, j);
      RunSane(ss, ps, es, j);
      assert Step(ss[j], ps[j], es[j], ss[j + 1]);
      if !IsLoss(ss[j], ps[j], es[j]) { NoLossStep(ss[j], ps[j], es[j]); }
    }
  }

  /** In every run a measured delay ends slow start exactly in the first slow start, before any
      loss, and changes nothing else. */
  lemma DelayEndsFirstSlowStart(ss: seq<State>, ps: seq<Path>, es: seq<Event>, k: nat)
    requires IsRun(ss, ps, es) && k < |es| && es[k] == Rtt(true)
    ensures var first := forall j :: 0 <= j < k ==> !IsLoss(ss[j], ps[j], es[j]);
            ss[k + 1] == ss[k].(slowStart := ss[k].slowStart && !first)
  {
    UntilFirstLoss(ss, ps, es, k);
    RunSane(ss, ps, es, k);
    assert Step(ss[k], ps[k], es[k], ss[k + 1]);
  }

  // ------------------------------------------------------------------------------ the controller

  /** A path and the state of its controller. */
  class Controller {
    var slowStart: bool
    var cwin: nat
    var residual: nat
    var ssthresh: nat
    var recovery: nat

    ghost function Abstract(): State
      reads this
    {
      State(slowStart, cwin, residual, ssthresh, recovery)
    }

    /** picoquic_newreno_init. */
    constructor ()
      ensures Abstract() == Init() && Sane(Abstract())
    {
      slowStart, cwin, residual, ssthresh, recovery := true, CWIN_INITIAL, 0, U64 - 1, 0;
    }

    /** picoquic_newreno_enter_recovery. */
    method Recover(timeout: bool, now: nat)
      modifies this
      ensures Abstract() == EnterRecovery(old(Abstract()), timeout, now)
    {
      ssthresh := cwin / 2;
      if ssthresh < CWIN_MINIMUM {
        ssthresh := CWIN_MINIMUM;
      }
      if timeout {
        cwin := CWIN_MINIMUM;
        slowStart := true;
      } else {
        cwin := ssthresh;
        slowStart := false;
      }
      recovery := now;
      residual := 0;
    }

    /** picoquic_newreno_notify. */
    method Handle(p: Path, e: Event)
      requires Sane(Abstract()) && Words(Abstract(), e)
      modifies this
      ensures Abstract() == Notify(old(Abstract()), p, e)
      ensures Sane(Abstract()) || old(Overflows(Abstract(), p, e))
    {
      NotifyIff(Abstract(), p, e);
      match e {
        case Acked(bytes) =>
          if slowStart {
            if cwin <= Wrap(p.inTransit + bytes) {
              cwin := Wrap(cwin + bytes);
              if cwin >= ssthresh {
                slowStart := false;
              }
            }
          } else {
            var delta := Wrap(bytes * p.mtu + residual);
            residual := delta % cwin;
            cwin := Wrap(cwin + delta / cwin);
          }
        case Repeat(now) =>
          if Since(now, recovery) > p.rtt { Recover(false, now); }
        case Timeout(now) =>
          if Since(now, recovery) > p.rtt { Recover(true, now); }
        case Spurious(now) =>
          if Since(now, recovery) < p.rtt {
            if cwin < Wrap(2 * ssthresh) {
              cwin := Wrap(2 * ssthresh);
              slowStart := false;
            }
          }
        case Rtt(leave) =>
          if slowStart && ssthresh == U64 - 1 && leave {
            slowStart := false;
          }
      }
    }
  }
}
