/** Properties of every run of the network, and of fair receipt. */
module NetIsolation {
  import opened Prelude
  import Arith
  import opened Net
  import opened NetRuns

  // ------------------------------------------------------------ what a step does to one queue

  /** The frames NIC `m` hears in a step. */
  ghost function Heard(n: Lan, st: Step, m: nat): seq<Frame> { HeardIn(n, Carried(n, st), m) }

  predicate IsSuffix<T(==)>(a: seq<T>, b: seq<T>) {
    |a| <= |b| && a == b[|b| - |a|..]
  }

  lemma SuffixJoins<T>(a: seq<T>, b: seq<T>, c: seq<T>, more: seq<T>)
    requires IsSuffix(a, b + more) && IsSuffix(b, c)
    ensures IsSuffix(a, c + more)
  {
    var d := c + more;
    assert d[|c| - |b|..] == b + more;
    assert a == d[|d| - |a|..];
  }

  function QueueOf(n: Lan, m: nat): seq<Frame> { if m < |n.nics| then n.nics[m].rxq else [] }

  /** What a NIC holds after a step is the newest part of what it held and what it heard. */
  lemma StepSuffix(n: Lan, st: Step, m: nat)
    requires LanOk(n) && Enabled(n, st)
    ensures IsSuffix(QueueOf(Apply(n, st), m), QueueOf(n, m) + Heard(n, st, m))
  {
    if st.Sent? || st.Matured? {
      StepSpreads(n, st);
      SpreadSuffix(n, Carried(n, st), Apply(n, st), m);
    } else {
      OtherSuffix(n, st, m);
      assert QueueOf(n, m) + [] == QueueOf(n, m);
    }
  }

  lemma SpreadSuffix(n: Lan, cs: seq<Copy>, l: Lan, m: nat)
    requires Spread(n, cs, l)
    ensures IsSuffix(QueueOf(l, m), QueueOf(n, m) + HeardIn(n, cs, m))
  {
    if m < |n.nics| { NewestIsSuffix(n.nics[m].rxq + HeardIn(n, cs, m)); }
  }

  lemma NewestIsSuffix<T>(q: seq<T>)
    ensures IsSuffix(Newest(q), q)
  {
  }

  lemma OtherSuffix(n: Lan, st: Step, m: nat)
    requires LanOk(n) && Enabled(n, st) && !st.Sent? && !st.Matured?
    ensures IsSuffix(QueueOf(Apply(n, st), m), QueueOf(n, m))
  {
    if st.Taken? {
      TakenSuffix(n, st.node, st.rr, m);
    } else if !st.AdminSet? {
      QueueSame(n, st, m);
    }
  }

  lemma TakenSuffix(n: Lan, node: nat, rr: nat, m: nat)
    requires ListsOk(n)
    ensures IsSuffix(QueueOf(RxAny(n, node, rr).n, m), QueueOf(n, m))
  {
    var i := RxCases(n, node, rr);
    if RxAny(n, node, rr).n != n { TakeFromSuffix(n, n.nodeNics[node], i, m); }
  }

  lemma TakeFromSuffix(n: Lan, list: seq<nat>, i: nat, m: nat)
    requires Known(n, list) && i < |list| && n.nics[list[i]].rxq != []
    ensures IsSuffix(QueueOf(TakeFrom(n, list, i).n, m), QueueOf(n, m))
  {
  }

  lemma QueueSame(n: Lan, st: Step, m: nat)
    requires LanOk(n) && Enabled(n, st) && !st.Sent? && !st.Matured? && !st.Taken? && !st.AdminSet?
    ensures QueueOf(Apply(n, st), m) == QueueOf(n, m)
  {
  }

  /** A NIC's cable is never moved. */
  lemma StepKeepsSeg(n: Lan, st: Step, m: nat)
    requires LanOk(n) && Enabled(n, st) && m < |n.nics|
    ensures m < |Apply(n, st).nics| && Apply(n, st).nics[m].node == n.nics[m].node
    ensures n.nics[m].seg.Some? ==> Apply(n, st).nics[m].seg == n.nics[m].seg
  {
    match st
    case Sent(nic, frame, now, luck) =>
      TransmitKeeps(n, nic, frame, now, luck);
      WiringKeepsSeg(n, Transmit(n, nic, frame, now, luck), m);
    case Matured(now) =>
      DeliverDueTakesTheDue(n, now);
      WiringKeepsSeg(n, DeliverDue(n, now), m);
    case CabledUp(members, faults) => CablingKeepsSeg(n, members, faults, m);
    case Taken(node, rr) => var i := RxCases(n, node, rr);
    case _ =>
  }

  lemma WiringKeepsSeg(n: Lan, l: Lan, m: nat)
    requires SameWiring(n, l) && m < |n.nics|
    ensures m < |l.nics| && l.nics[m].node == n.nics[m].node && l.nics[m].seg == n.nics[m].seg
  {
    assert n.nics[m].(rxq := []) == l.nics[m].(rxq := []);
  }

  lemma CablingKeepsSeg(n: Lan, members: seq<nat>, faults: Faults, m: nat)
    requires Known(n, members) && m < |n.nics|
    ensures var l := AddSegment(n, members, faults);
      && m < |l.nics| && l.nics[m].node == n.nics[m].node
      && (n.nics[m].seg.Some? ==> l.nics[m].seg == n.nics[m].seg)
  {
    CableProblemMeaning(n, members);
    if CableProblem(n, members).None? && m in members {
      var j :| 0 <= j < |members| && members[j] == m;
    }
  }

  lemma {:induction false} RunKeepsSeg(ns: seq<Lan>, sts: seq<Step>, i: nat, k: nat, m: nat)
    requires Run(ns, sts) && i <= k < |ns| && m < |ns[i].nics|
    ensures m < |ns[k].nics| && ns[k].nics[m].node == ns[i].nics[m].node
    ensures ns[i].nics[m].seg.Some? ==> ns[k].nics[m].seg == ns[i].nics[m].seg
    decreases k - i
  {
    if i < k {
      RunKeepsSeg(ns, sts, i, k - 1, m);
      RunStep(ns, sts, k - 1);
      StepKeepsSeg(ns[k - 1], sts[k - 1], m);
    }
  }

  // ------------------------------------------------------------ queues

  /** Everything NIC `m` has heard in the first `k` steps. */
  ghost function Accepted(ns: seq<Lan>, sts: seq<Step>, k: nat, m: nat): seq<Frame>
    requires k <= |sts| && |ns| == |sts| + 1
  {
    if k == 0 then [] else Accepted(ns, sts, k - 1, m) + Heard(ns[k - 1], sts[k - 1], m)
  }

  lemma QueueBounded(ns: seq<Lan>, sts: seq<Step>, k: nat, m: nat)
    requires Run(ns, sts) && k <= |sts|
    ensures |QueueOf(ns[k], m)| <= QUEUE_CAP
  {
    RunOk(ns, sts, k);
  }

  lemma RunSuffix(ns: seq<Lan>, sts: seq<Step>, k: nat, m: nat)
    requires Run(ns, sts) && 0 < k <= |sts|
    ensures IsSuffix(QueueOf(ns[k], m), QueueOf(ns[k - 1], m) + Heard(ns[k - 1], sts[k - 1], m))
  {
    RunStep(ns, sts, k - 1);
    StepSuffix(ns[k - 1], sts[k - 1], m);
  }

  /** A queue is always a suffix, of at most 256 frames, of all that its NIC ever accepted. */
  lemma QueueIsSuffix(ns: seq<Lan>, sts: seq<Step>, k: nat, m: nat)
    requires Run(ns, sts) && k <= |sts|
    ensures IsSuffix(QueueOf(ns[k], m), Accepted(ns, sts, k, m)) && |QueueOf(ns[k], m)| <= QUEUE_CAP
  {
    QueueBounded(ns, sts, k, m);
    SuffixSoFar(ns, sts, k, m);
  }

  lemma {:induction false} SuffixSoFar(ns: seq<Lan>, sts: seq<Step>, k: nat, m: nat)
    requires Run(ns, sts) && k <= |sts|
    ensures SuffixAt(ns, sts, k, m)
  {
    if k == 0 {
      SuffixAtStart(ns, sts, m);
    } else {
      SuffixSoFar(ns, sts, k - 1, m);
      SuffixNext(ns, sts, k, m);
    }
  }

  lemma SuffixAtStart(ns: seq<Lan>, sts: seq<Step>, m: nat)
    requires |ns| == |sts| + 1 && ns[0] == NOTHING
    ensures SuffixAt(ns, sts, 0, m)
  {
    assert QueueOf(NOTHING, m) == [];
  }

  ghost predicate SuffixAt(ns: seq<Lan>, sts: seq<Step>, k: nat, m: nat)
    requires |ns| == |sts| + 1 && k <= |sts|
  {
    IsSuffix(QueueOf(ns[k], m), Accepted(ns, sts, k, m))
  }

  lemma SuffixNext(ns: seq<Lan>, sts: seq<Step>, k: nat, m: nat)
    requires Run(ns, sts) && 0 < k <= |sts| && SuffixAt(ns, sts, k - 1, m)
    ensures SuffixAt(ns, sts, k, m)
  {
    RunSuffix(ns, sts, k, m);
    AcceptedJoins(ns, sts, k, m, QueueOf(ns[k - 1], m), QueueOf(ns[k], m));
  }

  lemma AcceptedJoins(ns: seq<Lan>, sts: seq<Step>, k: nat, m: nat, q: seq<Frame>, q': seq<Frame>)
    requires |ns| == |sts| + 1 && 0 < k <= |sts|
    requires IsSuffix(q, Accepted(ns, sts, k - 1, m)) && IsSuffix(q', q + Heard(ns[k - 1], sts[k - 1], m))
    ensures IsSuffix(q', Accepted(ns, sts, k, m))
  {
    SuffixJoins(q', q, Accepted(ns, sts, k - 1, m), Heard(ns[k - 1], sts[k - 1], m));
  }

  // ------------------------------------------------------------ where a frame comes from

  /** In this step NIC `m` was handed the copy `c`. */
  ghost predicate HeardAt(n: Lan, st: Step, m: nat, c: Copy) {
    c in Carried(n, st) && Hears(n, c, m)
  }

  lemma {:induction false} HeardInMeaning(n: Lan, cs: seq<Copy>, m: nat, f: Frame) returns (c: Copy)
    requires f in HeardIn(n, cs, m)
    ensures c in cs && Hears(n, c, m) && c.frame == f
  {
    if Hears(n, cs[0], m) && cs[0].frame == f {
      c := cs[0];
    } else {
      c := HeardInMeaning(n, cs[1..], m, f);
    }
  }

  lemma {:induction false} HeardInHolds(n: Lan, cs: seq<Copy>, m: nat, c: Copy)
    requires c in cs && Hears(n, c, m)
    ensures c.frame in HeardIn(n, cs, m)
  {
    if cs[0] != c { HeardInHolds(n, cs[1..], m, c); }
  }

  lemma HeardMeaning(n: Lan, st: Step, m: nat, f: Frame) returns (c: Copy)
    requires f in Heard(n, st, m)
    ensures HeardAt(n, st, m, c) && c.frame == f
  {
    c := HeardInMeaning(n, Carried(n, st), m, f);
  }

  lemma {:induction false} AcceptedMeaning(ns: seq<Lan>, sts: seq<Step>, k: nat, m: nat, f: Frame) returns (i: nat, c: Copy)
    requires |ns| == |sts| + 1 && k <= |sts| && f in Accepted(ns, sts, k, m)
    ensures i < k && HeardAt(ns[i], sts[i], m, c) && c.frame == f
  {
    var earlier, last := Accepted(ns, sts, k - 1, m), Heard(ns[k - 1], sts[k - 1], m);
    assert f in earlier + last;
    if f in last {
      i := k - 1;
      c := HeardMeaning(ns[i], sts[i], m, f);
    } else {
      i, c := AcceptedMeaning(ns, sts, k - 1, m, f);
    }
  }

  lemma {:induction false} InstantMeaning(c: Copy, ds: seq<nat>, x: Copy)
    requires x in Instant(c, ds)
    ensures x == c
  {
    if ds[0] != 0 || x != c { InstantMeaning(c, ds[1..], x); }
  }

  lemma {:induction false} ArrivingMeaning(n: Lan, es: seq<Entry>, x: Copy) returns (id: nat)
    requires x in Arriving(n, es)
    ensures id in n.delayed && n.delayed[id] == x
  {
    if Arrives(n, es[0]) && n.delayed[es[0].id] == x {
      id := es[0].id;
    } else {
      id := ArrivingMeaning(n, es[1..], x);
    }
  }

  lemma {:induction false} LaunchHolds(n: Lan, now: int, c: Copy, ds: seq<nat>, id: nat)
    requires id in Launch(n, now, c, ds).delayed
    ensures (id in n.delayed && Launch(n, now, c, ds).delayed[id] == n.delayed[id])
            || Launch(n, now, c, ds).delayed[id] == c
    decreases |ds|
  {
    if ds == [] {
    } else if ds[0] == 0 {
      LaunchHolds(Deliver(n, c), now, c, ds[1..], id);
    } else {
      LaunchHolds(Hold(n, now + ds[0], c), now, c, ds[1..], id);
    }
  }

  /** A copy under way after a step was under way before, or the step sent it. */
  lemma StepHolds(n: Lan, st: Step, id: nat)
    requires LanOk(n) && Enabled(n, st) && id in Apply(n, st).delayed
    ensures (id in n.delayed && Apply(n, st).delayed[id] == n.delayed[id]) || Launched(n, st, Apply(n, st).delayed[id])
  {
    if st.Matured? {
      DeliverDueTakesTheDue(n, st.now);
    } else if st.Sent? && Carrier(n, st.nic) {
      var s := SegOf(n, st.nic);
      var f := n.segs[s].faults;
      var ds := Delays(f, st.luck);
      if !Chance(f.dropPct, st.luck.drop) {
        LaunchHolds(CountCopies(CountFrame(n, s), s, |ds|), st.now, Copy(s, st.nic, Outgoing(f, st.frame, st.luck)), ds, id);
      }
    }
  }

  /** Some step before `k` sent the copy. */
  ghost predicate SentBefore(ns: seq<Lan>, sts: seq<Step>, k: nat, c: Copy) {
    exists i :: 0 <= i < k <= |sts| && i < |ns| && Launched(ns[i], sts[i], c)
  }

  lemma RunHolds(ns: seq<Lan>, sts: seq<Step>, k: nat, id: nat)
    requires Run(ns, sts) && k < |sts| && id in ns[k + 1].delayed
    ensures (id in ns[k].delayed && ns[k + 1].delayed[id] == ns[k].delayed[id]) || Launched(ns[k], sts[k], ns[k + 1].delayed[id])
  {
    RunStep(ns, sts, k);
    StepHolds(ns[k], sts[k], id);
  }

  lemma {:induction false} DelayedWasSent(ns: seq<Lan>, sts: seq<Step>, k: nat, id: nat)
    requires Run(ns, sts) && k <= |sts| && id in ns[k].delayed
    ensures SentBefore(ns, sts, k, ns[k].delayed[id])
  {
    if k > 0 {
      RunHolds(ns, sts, k - 1, id);
      if id in ns[k - 1].delayed && ns[k].delayed[id] == ns[k - 1].delayed[id] {
        DelayedWasSent(ns, sts, k - 1, id);
        var i :| 0 <= i < k - 1 && Launched(ns[i], sts[i], ns[k].delayed[id]);
      } else {
        assert Launched(ns[k - 1], sts[k - 1], ns[k].delayed[id]);
      }
    }
  }

  /** Whatever is offered to anyone was sent, by now. */
  lemma CarriedWasSent(ns: seq<Lan>, sts: seq<Step>, k: nat, c: Copy)
    requires Run(ns, sts) && k < |sts| && c in Carried(ns[k], sts[k])
    ensures SentBefore(ns, sts, k + 1, c)
  {
    RunOk(ns, sts, k);
    var n, st := ns[k], sts[k];
    if st.Matured? {
      var id := ArrivingMeaning(n, Ordered(Due(n.heap, st.now)), c);
      DelayedWasSent(ns, sts, k, id);
      var i :| 0 <= i < k && Launched(ns[i], sts[i], c);
    } else {
      var f := n.segs[SegOf(n, st.nic)].faults;
      InstantMeaning(Copy(SegOf(n, st.nic), st.nic, Outgoing(f, st.frame, st.luck)), Delays(f, st.luck), c);
      assert Launched(n, st, c);
    }
  }

  /** Segment isolation, end to end: a queued frame was sent by another NIC of the same segment, when that NIC
      had carrier, and handed over when the receiver was up, plugged in and accepting. */
  lemma Isolation(ns: seq<Lan>, sts: seq<Step>, m: nat, f: Frame) returns (sent: nat, heard: nat, c: Copy)
    requires Run(ns, sts) && f in QueueOf(ns[|sts|], m)
    ensures sent <= heard < |sts| && c.frame == f && c.src != m
    ensures Launched(ns[sent], sts[sent], c) && HeardAt(ns[heard], sts[heard], m, c)
    ensures m < |ns[|sts|].nics| && c.src < |ns[|sts|].nics|
    ensures ns[|sts|].nics[m].seg == ns[|sts|].nics[c.src].seg == Some(c.seg)
  {
    QueueIsSuffix(ns, sts, |sts|, m);
    assert f in Accepted(ns, sts, |sts|, m);
    heard, c := AcceptedMeaning(ns, sts, |sts|, m, f);
    CarriedWasSent(ns, sts, heard, c);
    sent :| 0 <= sent < heard + 1 && Launched(ns[sent], sts[sent], c);
    RunOk(ns, sts, heard);
    assert ns[heard].nics[m].seg == Some(c.seg);
    RunKeepsSeg(ns, sts, heard, |sts|, m);
    RunKeepsSeg(ns, sts, sent, |sts|, c.src);
  }

  // ------------------------------------------------------------ interrupts

  predicate FlagSet(n: Lan, node: nat) { node < |n.irq| && n.irq[node] }

  lemma StepKeepsIrq(n: Lan, st: Step, node: nat)
    requires LanOk(n) && Enabled(n, st) && FlagSet(n, node) && st != IrqTaken(node)
    ensures FlagSet(Apply(n, st), node)
  {
    if st.Sent? || st.Matured? { StepSpreads(n, st); }
  }

  lemma HeardSetsIrq(n: Lan, st: Step, m: nat, c: Copy)
    requires LanOk(n) && Enabled(n, st) && HeardAt(n, st, m, c)
    ensures FlagSet(Apply(n, st), n.nics[m].node)
  {
    assert st.Sent? || st.Matured?;
    StepSpreads(n, st);
    HeardInHolds(n, Carried(n, st), m, c);
    assert Alerted(n, Carried(n, st), n.nics[m].node);
  }

  /** After a frame was queued the computer's flag stays set until it is taken. */
  lemma {:induction false} IrqStays(ns: seq<Lan>, sts: seq<Step>, i: nat, k: nat, m: nat, c: Copy)
    requires Run(ns, sts) && i < k <= |sts| && HeardAt(ns[i], sts[i], m, c)
    requires forall j :: i < j < k ==> sts[j] != IrqTaken(ns[i].nics[m].node)
    ensures FlagSet(ns[k], ns[i].nics[m].node)
    decreases k
  {
    if k == i + 1 {
      RunHeardSetsIrq(ns, sts, i, m, c);
    } else {
      IrqStays(ns, sts, i, k - 1, m, c);
      RunKeepsIrq(ns, sts, k - 1, ns[i].nics[m].node);
    }
  }

  lemma RunHeardSetsIrq(ns: seq<Lan>, sts: seq<Step>, i: nat, m: nat, c: Copy)
    requires Run(ns, sts) && i < |sts| && HeardAt(ns[i], sts[i], m, c)
    ensures FlagSet(ns[i + 1], ns[i].nics[m].node)
  {
    RunStep(ns, sts, i);
    HeardSetsIrq(ns[i], sts[i], m, c);
  }

  lemma RunKeepsIrq(ns: seq<Lan>, sts: seq<Step>, k: nat, node: nat)
    requires Run(ns, sts) && k < |sts| && FlagSet(ns[k], node) && sts[k] != IrqTaken(node)
    ensures FlagSet(ns[k + 1], node)
  {
    RunStep(ns, sts, k);
    StepKeepsIrq(ns[k], sts[k], node);
  }

  lemma RunIrqCause(ns: seq<Lan>, sts: seq<Step>, k: nat, node: nat)
    requires Run(ns, sts) && k < |sts| && FlagSet(ns[k + 1], node)
    ensures sts[k] != IrqTaken(node) && (FlagSet(ns[k], node) || Alerted(ns[k], Carried(ns[k], sts[k]), node))
  {
    RunStep(ns, sts, k);
    if sts[k].Sent? || sts[k].Matured? { StepSpreads(ns[k], sts[k]); }
  }

  /** A flag that is set was set by a frame for that computer, not taken since. */
  lemma {:induction false} IrqMeansFrame(ns: seq<Lan>, sts: seq<Step>, k: nat, node: nat) returns (i: nat, m: nat)
    requires Run(ns, sts) && k <= |sts| && FlagSet(ns[k], node)
    ensures i < k && m < |ns[i].nics| && ns[i].nics[m].node == node && Heard(ns[i], sts[i], m) != []
    ensures forall j :: i <= j < k ==> sts[j] != IrqTaken(node)
  {
    RunIrqCause(ns, sts, k - 1, node);
    if FlagSet(ns[k - 1], node) {
      i, m := IrqMeansFrame(ns, sts, k - 1, node);
    } else {
      i := k - 1;
      m :| m < |ns[i].nics| && ns[i].nics[m].node == node && HeardIn(ns[i], Carried(ns[i], sts[i]), m) != [];
    }
  }

  // ------------------------------------------------------------ each delayed copy is handled once

  /** The delayed copies a step takes off the heap. */
  ghost function Handled(n: Lan, st: Step): set<nat> {
    if st.Matured? then set e | e in Due(n.heap, st.now) :: e.id else {}
  }

  lemma {:induction false} LaunchIds(n: Lan, now: int, c: Copy, ds: seq<nat>, id: nat)
    ensures n.lastId <= Launch(n, now, c, ds).lastId
    ensures id in Launch(n, now, c, ds).delayed && id <= n.lastId ==> id in n.delayed
    decreases |ds|
  {
    if ds == [] {
    } else if ds[0] == 0 {
      LaunchIds(Deliver(n, c), now, c, ds[1..], id);
    } else {
      LaunchIds(Hold(n, now + ds[0], c), now, c, ds[1..], id);
    }
  }

  lemma StepIds(n: Lan, st: Step, id: nat)
    requires LanOk(n) && Enabled(n, st)
    ensures n.lastId <= Apply(n, st).lastId
    ensures id in Apply(n, st).delayed && id <= n.lastId ==> id in n.delayed
  {
    if st.Matured? {
      DeliverDueTakesTheDue(n, st.now);
    } else if st.Sent? && Carrier(n, st.nic) {
      var s := SegOf(n, st.nic);
      var f := n.segs[s].faults;
      var ds := Delays(f, st.luck);
      LaunchIds(CountCopies(CountFrame(n, s), s, |ds|), st.now, Copy(s, st.nic, Outgoing(f, st.frame, st.luck)), ds, id);
    }
  }

  lemma HandledLeaves(n: Lan, st: Step, id: nat)
    requires LanOk(n) && Enabled(n, st) && id in Handled(n, st)
    ensures id in n.delayed && id <= n.lastId && id !in Apply(n, st).delayed
  {
    DeliverDueTakesTheDue(n, st.now);
    var e :| e in Due(n.heap, st.now) && e.id == id;
    DueIdsLeave(n, Apply(n, st), st.now, e);
  }

  lemma DueIdsLeave(n: Lan, m: Lan, now: int, e: Entry)
    requires FlightOk(n) && FlightOk(m) && m.heap == n.heap - Due(n.heap, now) && e in Due(n.heap, now)
    ensures e.id !in m.delayed
  {
    assert HasId(m.heap, e.id) ==> exists x :: x in m.heap && x.id == e.id;
  }

  lemma RunIds(ns: seq<Lan>, sts: seq<Step>, k: nat, id: nat)
    requires Run(ns, sts) && k < |sts|
    ensures ns[k].lastId <= ns[k + 1].lastId
    ensures id in ns[k + 1].delayed && id <= ns[k].lastId ==> id in ns[k].delayed
    ensures id in Handled(ns[k], sts[k]) ==> id in ns[k].delayed && id <= ns[k].lastId && id !in ns[k + 1].delayed
  {
    RunStep(ns, sts, k);
    StepIds(ns[k], sts[k], id);
    if id in Handled(ns[k], sts[k]) { HandledLeaves(ns[k], sts[k], id); }
  }

  lemma {:induction false} HandledIsGone(ns: seq<Lan>, sts: seq<Step>, i: nat, k: nat, id: nat)
    requires Run(ns, sts) && i < k <= |sts| && id in Handled(ns[i], sts[i])
    ensures id <= ns[k].lastId && id !in ns[k].delayed
    decreases k
  {
    if i + 1 < k { HandledIsGone(ns, sts, i, k - 1, id); }
    RunIds(ns, sts, k - 1, id);
  }

  /** No delayed copy is handled twice, and none before its time. */
  lemma HandledOnce(ns: seq<Lan>, sts: seq<Step>, i: nat, k: nat, id: nat)
    requires Run(ns, sts) && i < k < |sts| && id in Handled(ns[i], sts[i])
    ensures id !in Handled(ns[k], sts[k])
  {
    HandledIsGone(ns, sts, i, k, id);
    RunIds(ns, sts, k, id);
  }

  // ------------------------------------------------------------ fair receipt

  /** How many faces are asked before face `i`. */
  function Turns(i: nat, rr: nat, len: nat): nat
    requires len > 0
  {
    (i - rr) % len
  }

  lemma TurnsMeaning(i: nat, rr: nat, len: nat)
    requires i < len
    ensures (rr + Turns(i, rr, len)) % len == i
  {
    var q := (i - rr) / len;
    assert i - rr == len * q + Turns(i, rr, len);
    assert len * (-q) == -(len * q);
    Arith.DivModIs(rr + Turns(i, rr, len), -q, i, len);
  }

  /** After the turn went `j` faces on and past that face, face `i` is `j + 1` nearer. */
  lemma TurnsAfter(i: nat, rr: nat, j: nat, len: nat)
    requires i < len && j < Turns(i, rr, len)
    ensures Turns(i, ((rr + j) % len + 1) % len, len) == Turns(i, rr, len) - j - 1
  {
    var f := (rr + j) % len;
    var r := (f + 1) % len;
    var a, b, c := (rr + j) / len, (f + 1) / len, (i - rr) / len;
    Quotient(rr + j, len);
    Quotient(f + 1, len);
    Quotient(i - rr, len);
    Distribute(len, a, b, c);
    Arith.DivModIs(i - r, a + b + c, Turns(i, rr, len) - j - 1, len);
  }

  lemma Quotient(x: int, len: nat)
    requires len > 0
    ensures x == len * (x / len) + x % len
  {
  }

  lemma Distribute(len: int, a: int, b: int, c: int)
    ensures len * (a + b + c) == len * a + len * b + len * c
  {
  }

  lemma {:induction false} FirstTurnFrom(n: Lan, list: seq<nat>, rr: nat, k: nat, i: nat)
    requires Known(n, list) && i < |list| && n.nics[list[i]].rxq != [] && k <= Turns(i, rr, |list|)
    ensures FirstTurn(n, list, rr, k).Some? && FirstTurn(n, list, rr, k).value <= Turns(i, rr, |list|)
    decreases |list| - k
  {
    TurnsMeaning(i, rr, |list|);
    if k < Turns(i, rr, |list|) { FirstTurnFrom(n, list, rr, k + 1, i); }
  }

  /** A call either takes face `i`'s oldest frame or brings its turn nearer. */
  lemma RxComesNearer(n: Lan, node: nat, rr: nat, i: nat)
    requires ListsOk(n) && node < |n.nodeNics| && i < |n.nodeNics[node]|
    requires n.nics[n.nodeNics[node][i]].rxq != []
    ensures var len := |n.nodeNics[node]|;
      var r := RxAny(n, node, rr);
      && r.got.Some?
      && (r.got == Some((i, n.nics[n.nodeNics[node][i]].rxq[0])) || Turns(i, r.rr, len) < Turns(i, rr, len))
  {
    var list := n.nodeNics[node];
    FirstTurnFrom(n, list, rr, 0, i);
    TurnsMeaning(i, rr, |list|);
    var j := FirstTurn(n, list, rr, 0).value;
    if j < Turns(i, rr, |list|) { TurnsAfter(i, rr, j, |list|); }
  }

  /** A computer's list of faces is never changed. */
  lemma StepKeepsList(n: Lan, st: Step, node: nat)
    requires LanOk(n) && Enabled(n, st) && node < |n.nodeNics|
    ensures node < |Apply(n, st).nodeNics| && Apply(n, st).nodeNics[node] == n.nodeNics[node]
  {
    match st
    case Sent(nic, _, now, luck) =>
      if Carrier(n, nic) {
        var s := SegOf(n, nic);
        var f := n.segs[s].faults;
        var ds := Delays(f, luck);
        LaunchWiring(CountCopies(CountFrame(n, s), s, |ds|), now, Copy(s, nic, Outgoing(f, st.frame, luck)), ds);
      }
    case Matured(now) => MatureWiring(n, Ordered(Due(n.heap, now)));
    case _ =>
  }

  predicate IsCall(st: Step, node: nat) { st.Taken? && st.node == node }

  /** What a call for the computer returns. */
  function Got(n: Lan, st: Step): Option<(nat, Frame)>
    requires st.Taken? && ListsOk(n)
  {
    RxAny(n, st.node, st.rr).got
  }

  /** The queue does not overflow in this step, and its NIC is not set down. */
  ghost predicate Kept(n: Lan, st: Step, m: nat) {
    |QueueOf(n, m)| + |Heard(n, st, m)| <= QUEUE_CAP && st != AdminSet(m, false)
  }

  /** NIC `m` is face `i` of the computer. */
  predicate FaceOf(n: Lan, node: nat, i: nat, m: nat) {
    node < |n.nodeNics| && i < |n.nodeNics[node]| && n.nodeNics[node][i] == m && m < |n.nics|
  }

  lemma TakenElsewhere(n: Lan, other: nat, rr: nat, node: nat, i: nat, m: nat)
    requires LanOk(n) && FaceOf(n, node, i, m) && n.nics[m].rxq != []
    requires other == node ==> RxAny(n, node, rr).got != Some((i, n.nics[m].rxq[0]))
    ensures QueueOf(RxAny(n, other, rr).n, m) == QueueOf(n, m)
  {
    if other < |n.nodeNics| && FirstTurn(n, n.nodeNics[other], rr, 0).Some? {
      var list := n.nodeNics[other];
      var j := (rr + FirstTurn(n, list, rr, 0).value) % |list|;
      assert RxAny(n, other, rr) == TakeFrom(n, list, j);
      assert n.nics[list[j]].node == other && n.nics[list[j]].iface == j && n.nics[m].node == node && n.nics[m].iface == i;
    }
  }

  /** Then a waiting frame stays the oldest until it is taken. */
  lemma HeadStays(n: Lan, st: Step, node: nat, i: nat, m: nat)
    requires LanOk(n) && Enabled(n, st) && FaceOf(n, node, i, m) && QueueOf(n, m) != [] && Kept(n, st, m)
    requires IsCall(st, node) ==> Got(n, st) != Some((i, QueueOf(n, m)[0]))
    ensures QueueOf(Apply(n, st), m) != [] && QueueOf(Apply(n, st), m)[0] == QueueOf(n, m)[0]
  {
    if st.Sent? || st.Matured? {
      StepSpreads(n, st);
      var all := n.nics[m].rxq + Heard(n, st, m);
      assert Apply(n, st).nics[m].rxq == Newest(all) == all;
    } else if st.Taken? {
      TakenElsewhere(n, st.node, st.rr, node, i, m);
    } else if !st.AdminSet? {
      QueueSame(n, st, m);
    }
  }

  /** The turn after the steps `a` to `k - 1`, if it is `rr` before them: only the computer's own calls move it. */
  ghost function Turn(ns: seq<Lan>, sts: seq<Step>, a: nat, k: nat, node: nat, rr: nat): nat
    requires Run(ns, sts) && a <= k <= |sts|
    decreases k
  {
    if k == a then rr
    else
      var t := Turn(ns, sts, a, k - 1, node, rr);
      if IsCall(sts[k - 1], node) then (RunOk(ns, sts, k - 1); RxAny(ns[k - 1], node, t).rr) else t
  }

  /** How many of the steps are calls for the computer. */
  function CallsMade(sts: seq<Step>, a: nat, k: nat, node: nat): nat
    requires a <= k <= |sts|
    decreases k
  {
    if k == a then 0 else CallsMade(sts, a, k - 1, node) + if IsCall(sts[k - 1], node) then 1 else 0
  }

  /** Each call continues with the turn the one before it left. */
  ghost predicate TurnsPassedOn(ns: seq<Lan>, sts: seq<Step>, a: nat, b: nat, node: nat, rr: nat)
    requires Run(ns, sts) && a <= b <= |sts|
  {
    forall k :: a <= k < b && IsCall(sts[k], node) ==> sts[k].rr == Turn(ns, sts, a, k, node, rr)
  }

  ghost predicate KeptThroughout(ns: seq<Lan>, sts: seq<Step>, a: nat, b: nat, m: nat)
    requires |ns| == |sts| + 1 && a <= b <= |sts|
  {
    forall k :: a <= k < b ==> Kept(ns[k], sts[k], m)
  }

  /** One of the steps is a call that returns the frame. */
  ghost predicate Returned(ns: seq<Lan>, sts: seq<Step>, a: nat, b: nat, node: nat, i: nat, f: Frame)
    requires Run(ns, sts) && a <= b <= |sts|
  {
    exists k :: a <= k < b && ReturnedAt(ns, sts, k, node, i, f)
  }

  ghost predicate ReturnedAt(ns: seq<Lan>, sts: seq<Step>, k: nat, node: nat, i: nat, f: Frame)
    requires k < |sts| && |ns| == |sts| + 1
  {
    IsCall(sts[k], node) && ListsOk(ns[k]) && Got(ns[k], sts[k]) == Some((i, f))
  }

  /** Where things stand while the frame still waits. */
  ghost predicate Waiting(n: Lan, node: nat, i: nat, m: nat, f: Frame) {
    FaceOf(n, node, i, m) && QueueOf(n, m) != [] && QueueOf(n, m)[0] == f
  }

  lemma WaitsOn(ns: seq<Lan>, sts: seq<Step>, k: nat, node: nat, i: nat, m: nat, f: Frame)
    requires Run(ns, sts) && k < |sts| && Waiting(ns[k], node, i, m, f) && Kept(ns[k], sts[k], m)
    ensures ReturnedAt(ns, sts, k, node, i, f) || Waiting(ns[k + 1], node, i, m, f)
    ensures |ns[k + 1].nodeNics| > node && ns[k + 1].nodeNics[node] == ns[k].nodeNics[node]
  {
    RunStep(ns, sts, k);
    StepKeepsList(ns[k], sts[k], node);
    StepKeepsSeg(ns[k], sts[k], m);
    if !ReturnedAt(ns, sts, k, node, i, f) { HeadStays(ns[k], sts[k], node, i, m); }
  }

  lemma TurnComesNearer(ns: seq<Lan>, sts: seq<Step>, k: nat, node: nat, i: nat, m: nat, f: Frame)
    requires Run(ns, sts) && k < |sts| && Waiting(ns[k], node, i, m, f) && IsCall(sts[k], node)
    ensures ListsOk(ns[k])
    ensures var len := |ns[k].nodeNics[node]|;
      ReturnedAt(ns, sts, k, node, i, f) || Turns(i, RxAny(ns[k], node, sts[k].rr).rr, len) < Turns(i, sts[k].rr, len)
  {
    RunOk(ns, sts, k);
    RxComesNearer(ns[k], node, sts[k].rr, i);
  }

  /** The frame still waits, and each call so far has brought the face's turn nearer. */
  ghost predicate ComingUp(ns: seq<Lan>, sts: seq<Step>, a: nat, k: nat, node: nat, i: nat, m: nat, f: Frame, rr: nat, len: nat)
    requires Run(ns, sts) && a <= k <= |sts| && len > 0
  {
    && Waiting(ns[k], node, i, m, f) && |ns[k].nodeNics[node]| == len
    && Turns(i, Turn(ns, sts, a, k, node, rr), len) + CallsMade(sts, a, k, node) <= Turns(i, rr, len)
  }

  lemma ComesUp(ns: seq<Lan>, sts: seq<Step>, a: nat, k: nat, node: nat, i: nat, m: nat, f: Frame, rr: nat, len: nat)
    requires Run(ns, sts) && a <= k < |sts| && len > 0 && ComingUp(ns, sts, a, k, node, i, m, f, rr, len)
    requires Kept(ns[k], sts[k], m) && (IsCall(sts[k], node) ==> sts[k].rr == Turn(ns, sts, a, k, node, rr))
    ensures ReturnedAt(ns, sts, k, node, i, f) || ComingUp(ns, sts, a, k + 1, node, i, m, f, rr, len)
  {
    WaitsOn(ns, sts, k, node, i, m, f);
    if IsCall(sts[k], node) { TurnComesNearer(ns, sts, k, node, i, m, f); }
  }

  lemma {:induction false} TurnsRunOut(ns: seq<Lan>, sts: seq<Step>, a: nat, k: nat, b: nat, node: nat, i: nat, m: nat, f: Frame,
                                       rr: nat, len: nat)
    requires Run(ns, sts) && a <= k <= b <= |sts| && len > 0 && ComingUp(ns, sts, a, k, node, i, m, f, rr, len)
    requires TurnsPassedOn(ns, sts, a, b, node, rr) && KeptThroughout(ns, sts, a, b, m)
    ensures Returned(ns, sts, k, b, node, i, f) || ComingUp(ns, sts, a, b, node, i, m, f, rr, len)
    decreases b - k
  {
    if k < b {
      ComesUp(ns, sts, a, k, node, i, m, f, rr, len);
      if !ReturnedAt(ns, sts, k, node, i, f) {
        TurnsRunOut(ns, sts, a, k + 1, b, node, i, m, f, rr, len);
        ReturnedSooner(ns, sts, k, k + 1, b, node, i, f);
      }
    }
  }

  lemma ReturnedSooner(ns: seq<Lan>, sts: seq<Step>, a: nat, k: nat, b: nat, node: nat, i: nat, f: Frame)
    requires Run(ns, sts) && a <= k <= b <= |sts|
    ensures Returned(ns, sts, k, b, node, i, f) ==> Returned(ns, sts, a, b, node, i, f)
  {
  }

  /** Round-robin receipt is fair in every run: of as many calls as the computer has faces, one returns the frame that
      waits at the head of face `i`, whatever else happens, as long as that queue does not overflow and its NIC is not
      set down. */
  lemma RxIsFair(ns: seq<Lan>, sts: seq<Step>, a: nat, b: nat, node: nat, i: nat, m: nat, f: Frame, rr: nat)
    requires Run(ns, sts) && a <= b <= |sts| && Waiting(ns[a], node, i, m, f)
    requires TurnsPassedOn(ns, sts, a, b, node, rr) && KeptThroughout(ns, sts, a, b, m)
    requires CallsMade(sts, a, b, node) >= |ns[a].nodeNics[node]|
    ensures Returned(ns, sts, a, b, node, i, f)
  {
    TurnsRunOut(ns, sts, a, a, b, node, i, m, f, rr, |ns[a].nodeNics[node]|);
  }
}
