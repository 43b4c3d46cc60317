/** Every run of the network: segment isolation, where frames come from, queues, interrupts, and fair receipt. */
module NetRuns {
  import opened Prelude
  import opened Net

  // ------------------------------------------------------------ steps

  datatype Step =
    | NodeAdded(ifaces: nat)
    | CabledUp(members: seq<nat>, faults: Faults)
    | AdminSet(nic: nat, up: bool)
    | PromiscSet(nic: nat, on: bool)
    | SegmentSet(seg: nat, up: bool)
    | CableSet(nic: nat, up: bool)
    | FaultsSet(seg: nat, faults: Faults)
    | Sent(nic: nat, frame: Frame, now: int, luck: Luck)
    | Matured(now: int)
    | Taken(node: nat, rr: nat)
    | IrqTaken(node: nat)

  /** What the callers answer for: the indices exist. */
  predicate Enabled(n: Lan, st: Step) {
    match st
    case CabledUp(members, _) => Known(n, members)
    case AdminSet(nic, _) => nic < |n.nics|
    case PromiscSet(nic, _) => nic < |n.nics|
    case SegmentSet(seg, _) => seg < |n.segs|
    case CableSet(nic, _) => nic < |n.nics|
    case FaultsSet(seg, _) => seg < |n.segs|
    case Sent(nic, _, _, _) => nic < |n.nics|
    case IrqTaken(node) => node < |n.irq|
    case _ => true
  }

  ghost function Apply(n: Lan, st: Step): Lan
    requires LanOk(n) && Enabled(n, st)
  {
    match st
    case NodeAdded(ifaces) => AddNode(n, ifaces)
    case CabledUp(members, faults) => AddSegment(n, members, faults)
    case AdminSet(nic, up) => SetAdmin(n, nic, up)
    case PromiscSet(nic, on) => SetPromisc(n, nic, on)
    case SegmentSet(seg, up) => SetSegmentUp(n, seg, up)
    case CableSet(nic, up) => if SetCable(n, nic, up).Some? then SetCable(n, nic, up).value else n
    case FaultsSet(seg, faults) => SetFaults(n, seg, faults)
    case Sent(nic, frame, now, luck) => Transmit(n, nic, frame, now, luck)
    case Matured(now) => DeliverDue(n, now)
    case Taken(node, rr) => RxAny(n, node, rr).n
    case IrqTaken(node) => TakeIrq(n, node)
  }

  lemma SetNicKeeps(n: Lan, nic: nat, to: Nic)
    requires LanOk(n) && nic < |n.nics| && |to.rxq| <= QUEUE_CAP
    requires to.node == n.nics[nic].node && to.iface == n.nics[nic].iface && to.seg == n.nics[nic].seg
    ensures LanOk(SetNic(n, nic, to))
  {
    SlotsKeep(n, SetNic(n, nic, to));
  }

  lemma SetSegKeeps(n: Lan, s: nat, to: Segment)
    requires LanOk(n) && s < |n.segs| && to.members == n.segs[s].members && SegCounts(to)
    ensures LanOk(n.(segs := n.segs[s := to]))
  {
    CountKeeps(n, n.segs[s := to]);
  }

  lemma ApplyKeeps(n: Lan, st: Step)
    requires LanOk(n) && Enabled(n, st)
    ensures LanOk(Apply(n, st))
  {
    match st
    case NodeAdded(ifaces) => AddNodeKeeps(n, ifaces);
    case CabledUp(members, faults) => AddSegmentKeeps(n, members, faults);
    case AdminSet(nic, up) => SetNicKeeps(n, nic, SetAdmin(n, nic, up).nics[nic]);
    case PromiscSet(nic, on) => SetNicKeeps(n, nic, SetPromisc(n, nic, on).nics[nic]);
    case SegmentSet(seg, up) => SetSegKeeps(n, seg, n.segs[seg].(up := up));
    case CableSet(nic, up) =>
      if n.nics[nic].seg.Some? {
        SetSegKeeps(n, n.nics[nic].seg.value, n.segs[n.nics[nic].seg.value].(up := up));
        SetNicKeeps(n, nic, n.nics[nic].(attached := up));
      }
    case FaultsSet(seg, faults) => SetSegKeeps(n, seg, n.segs[seg].(faults := faults));
    case Sent(nic, frame, now, luck) => TransmitKeeps(n, nic, frame, now, luck);
    case Matured(now) => DeliverDueTakesTheDue(n, now);
    case Taken(node, rr) => TakenKeeps(n, node, rr);
    case IrqTaken(node) => SlotsKeep(n, TakeIrq(n, node));
  }

  lemma RxCases(n: Lan, node: nat, rr: nat) returns (i: nat)
    requires ListsOk(n)
    ensures RxAny(n, node, rr).n != n ==>
              && node < |n.nodeNics| && Known(n, n.nodeNics[node]) && i < |n.nodeNics[node]|
              && n.nics[n.nodeNics[node][i]].rxq != [] && RxAny(n, node, rr).n == TakeFrom(n, n.nodeNics[node], i).n
  {
    i := 0;
    if node < |n.nodeNics| && FirstTurn(n, n.nodeNics[node], rr, 0).Some? {
      var list := n.nodeNics[node];
      i := (rr + FirstTurn(n, list, rr, 0).value) % |list|;
    }
  }

  lemma TakenKeeps(n: Lan, node: nat, rr: nat)
    requires LanOk(n)
    ensures LanOk(RxAny(n, node, rr).n)
  {
    var i := RxCases(n, node, rr);
    if RxAny(n, node, rr).n != n { TakeFromKeeps(n, n.nodeNics[node], i); }
  }

  lemma TakeFromKeeps(n: Lan, list: seq<nat>, i: nat)
    requires LanOk(n) && Known(n, list) && i < |list| && n.nics[list[i]].rxq != []
    ensures LanOk(TakeFrom(n, list, i).n)
  {
    var m := list[i];
    SetNicKeeps(n, m, n.nics[m].(rxq := n.nics[m].rxq[1..]));
  }

  /** `ns[i + 1]` is `ns[i]` after step `i`; it all starts with an empty network. */
  ghost predicate Run(ns: seq<Lan>, sts: seq<Step>) {
    && |ns| == |sts| + 1 && ns[0] == NOTHING
    && forall i :: 0 <= i < |sts| ==> FollowsAt(ns, sts, i)
  }

  ghost predicate FollowsAt(ns: seq<Lan>, sts: seq<Step>, i: nat)
    requires i < |sts| && |ns| == |sts| + 1
  {
    Follows(ns[i], sts[i], ns[i + 1])
  }

  /** Nothing is said beyond states that break the invariant; `RunOk` shows that there are none. */
  ghost predicate Follows(n: Lan, st: Step, n': Lan) {
    LanOk(n) ==> Enabled(n, st) && n' == Apply(n, st)
  }

  lemma NoStepYet()
    ensures Run([NOTHING], []) && LanOk(NOTHING)
  {
  }

  /** One step more. */
  lemma RunGrows(ns: seq<Lan>, sts: seq<Step>, st: Step, n': Lan)
    requires Run(ns, sts) && Follows(ns[|sts|], st, n')
    ensures Run(ns + [n'], sts + [st])
  {
    var us, ss := ns + [n'], sts + [st];
    forall i | 0 <= i < |ss| ensures FollowsAt(us, ss, i) {
      if i < |sts| { assert FollowsAt(ns, sts, i); }
    }
  }

  /** In every reachable state a NIC is a member of a segment exactly when its cable says so, heap and map agree,
      queues are bounded and every transmission is accounted for. */
  lemma {:induction false} RunOk(ns: seq<Lan>, sts: seq<Step>, k: nat)
    requires Run(ns, sts) && k < |ns|
    ensures LanOk(ns[k])
  {
    if k > 0 {
      RunOk(ns, sts, k - 1);
      assert FollowsAt(ns, sts, k - 1);
      ApplyKeeps(ns[k - 1], sts[k - 1]);
    }
  }

  lemma RunStep(ns: seq<Lan>, sts: seq<Step>, k: nat)
    requires Run(ns, sts) && k < |sts|
    ensures LanOk(ns[k]) && Enabled(ns[k], sts[k]) && ns[k + 1] == Apply(ns[k], sts[k]) && LanOk(ns[k + 1])
  {
    RunOk(ns, sts, k);
    RunOk(ns, sts, k + 1);
    assert FollowsAt(ns, sts, k);
  }

  // ------------------------------------------------------------ copies handed over

  /** The copies without delay. */
  function Instant(c: Copy, ds: seq<nat>): seq<Copy> {
    if ds == [] then [] else (if ds[0] == 0 then [c] else []) + Instant(c, ds[1..])
  }

  /** The copies of the entries whose senders are still plugged in. */
  function Arriving(n: Lan, es: seq<Entry>): seq<Copy> {
    if es == [] then [] else (if Arrives(n, es[0]) then [n.delayed[es[0].id]] else []) + Arriving(n, es[1..])
  }

  /** The sender's frame went onto the segment, as copies `c`. */
  ghost predicate Launched(n: Lan, st: Step, c: Copy) {
    && st.Sent? && Carrier(n, st.nic)
    && var f := n.segs[SegOf(n, st.nic)].faults;
       !Chance(f.dropPct, st.luck.drop) && c == Copy(SegOf(n, st.nic), st.nic, Outgoing(f, st.frame, st.luck))
  }

  /** The copies a step offers to the members of their segments, in order. */
  ghost function Carried(n: Lan, st: Step): seq<Copy> {
    match st
    case Sent(nic, frame, _, luck) =>
      if !Carrier(n, nic) then []
      else
        var f := n.segs[SegOf(n, nic)].faults;
        if Chance(f.dropPct, luck.drop) then []
        else Instant(Copy(SegOf(n, nic), nic, Outgoing(f, frame, luck)), Delays(f, luck))
    case Matured(now) => Arriving(n, Ordered(Due(n.heap, now)))
    case _ => []
  }

  /** The frames among them that NIC `m` hears. */
  function HeardIn(n: Lan, cs: seq<Copy>, m: nat): seq<Frame> {
    if cs == [] then [] else (if Hears(n, cs[0], m) then [cs[0].frame] else []) + HeardIn(n, cs[1..], m)
  }

  ghost predicate Alerted(n: Lan, cs: seq<Copy>, node: nat) {
    exists m: nat :: m < |n.nics| && n.nics[m].node == node && HeardIn(n, cs, m) != []
  }

  lemma {:induction false} HeardInSame(a: Lan, b: Lan, cs: seq<Copy>, m: nat)
    requires SameWiring(a, b)
    ensures HeardIn(a, cs, m) == HeardIn(b, cs, m)
  {
    if cs != [] {
      HearsSame(a, b, cs[0], m);
      HeardInSame(a, b, cs[1..], m);
    }
  }

  lemma HearsSame(a: Lan, b: Lan, c: Copy, m: nat)
    requires SameWiring(a, b)
    ensures Hears(a, c, m) == Hears(b, c, m)
  {
    if m < |a.nics| { assert a.nics[m].(rxq := []) == b.nics[m].(rxq := []); }
  }

  /** The queues and interrupt flags after offering the copies `cs`. */
  ghost predicate Spread(n: Lan, cs: seq<Copy>, l: Lan) {
    && SameWiring(n, l) && |l.irq| == |n.irq|
    && (forall m :: 0 <= m < |n.nics| ==> l.nics[m].rxq == Newest(n.nics[m].rxq + HeardIn(n, cs, m)))
    && (forall k :: 0 <= k < |n.irq| ==> (l.irq[k] <==> n.irq[k] || Alerted(n, cs, k)))
  }

  lemma SpreadNone(n: Lan, l: Lan)
    requires QueuesOk(n.nics) && l.nics == n.nics && l.irq == n.irq && SameWiring(n, l)
    ensures Spread(n, [], l)
  {
    forall m | 0 <= m < |n.nics| ensures l.nics[m].rxq == Newest(n.nics[m].rxq + HeardIn(n, [], m)) {
      assert n.nics[m].rxq + [] == n.nics[m].rxq;
    }
  }

  /** First one copy, then the others. */
  lemma SpreadMore(n: Lan, c: Copy, cs: seq<Copy>, k: Lan, l: Lan)
    requires QueuesOk(n.nics)
    requires k.nics == DeliveredNics(n, c) && k.irq == DeliveredIrq(n, c) && SameWiring(n, k) && Spread(k, cs, l)
    ensures Spread(n, [c] + cs, l)
  {
    WiringJoins(n, k, l);
    forall m | 0 <= m < |n.nics| ensures l.nics[m].rxq == Newest(n.nics[m].rxq + HeardIn(n, [c] + cs, m)) {
      SpreadMoreQueue(n, c, cs, k, l, m);
    }
    forall i | 0 <= i < |n.irq| ensures l.irq[i] <==> n.irq[i] || Alerted(n, [c] + cs, i) {
      SpreadMoreIrq(n, c, cs, k, i);
    }
  }

  lemma SpreadMoreQueue(n: Lan, c: Copy, cs: seq<Copy>, k: Lan, l: Lan, m: nat)
    requires QueuesOk(n.nics) && m < |n.nics|
    requires k.nics == DeliveredNics(n, c) && SameWiring(n, k) && Spread(k, cs, l)
    ensures l.nics[m].rxq == Newest(n.nics[m].rxq + HeardIn(n, [c] + cs, m))
  {
    assert ([c] + cs)[1..] == cs;
    HeardInSame(n, k, cs, m);
    var q, rest := n.nics[m].rxq, HeardIn(n, cs, m);
    if Hears(n, c, m) {
      assert k.nics[m].rxq == Newest(q + [c.frame]);
      NewestTwice(q, [c.frame], rest);
    } else {
      assert HeardIn(n, [c] + cs, m) == rest;
    }
  }

  lemma SpreadMoreIrq(n: Lan, c: Copy, cs: seq<Copy>, k: Lan, node: nat)
    requires SameWiring(n, k)
    ensures Alerted(n, [c] + cs, node) <==> HeardOn(n, c, node) || Alerted(k, cs, node)
  {
    var all := [c] + cs;
    assert all[1..] == cs;
    forall m: nat | m < |n.nics|
      ensures k.nics[m].node == n.nics[m].node
      ensures HeardIn(n, all, m) != [] <==> Hears(n, c, m) || HeardIn(k, cs, m) != []
    {
      HeardInSame(n, k, cs, m);
      assert n.nics[m].(rxq := []) == k.nics[m].(rxq := []);
    }
    if HeardOn(n, c, node) {
      var m: nat :| Hears(n, c, m) && n.nics[m].node == node;
      assert HeardIn(n, all, m) != [];
    }
    if Alerted(k, cs, node) {
      var m: nat :| m < |k.nics| && k.nics[m].node == node && HeardIn(k, cs, m) != [];
      assert HeardIn(n, all, m) != [];
    }
    if Alerted(n, all, node) {
      var m: nat :| m < |n.nics| && n.nics[m].node == node && HeardIn(n, all, m) != [];
      assert Hears(n, c, m) || HeardIn(k, cs, m) != [];
    }
  }

  lemma {:induction false} LaunchSpreads(n: Lan, now: int, c: Copy, ds: seq<nat>)
    requires QueuesOk(n.nics)
    ensures Spread(n, Instant(c, ds), Launch(n, now, c, ds))
    decreases |ds|
  {
    if ds == [] {
      SpreadNone(n, n);
    } else if ds[0] == 0 {
      LaunchSpreads(Deliver(n, c), now, c, ds[1..]);
      SpreadMore(n, c, Instant(c, ds[1..]), Deliver(n, c), Launch(n, now, c, ds));
    } else {
      var h := Hold(n, now + ds[0], c);
      LaunchSpreads(h, now, c, ds[1..]);
      SpreadSame(n, h, Instant(c, ds[1..]), Launch(n, now, c, ds));
      assert Instant(c, ds) == Instant(c, ds[1..]);
    }
  }

  /** Only the queues, the flags and the wiring matter. */
  lemma SpreadSame(n: Lan, h: Lan, cs: seq<Copy>, l: Lan)
    requires n.nics == h.nics && n.irq == h.irq && SameWiring(n, h) && Spread(h, cs, l)
    ensures Spread(n, cs, l)
  {
    WiringJoins(n, h, l);
    forall m: nat | m < |n.nics| ensures HeardIn(n, cs, m) == HeardIn(h, cs, m) { HeardInSame(n, h, cs, m); }
    forall k: nat | k < |n.irq| ensures Alerted(n, cs, k) <==> Alerted(h, cs, k) { AlertedSame(n, h, cs, k); }
  }

  lemma AlertedSame(n: Lan, h: Lan, cs: seq<Copy>, k: nat)
    requires n.nics == h.nics && forall m: nat :: m < |n.nics| ==> HeardIn(n, cs, m) == HeardIn(h, cs, m)
    ensures Alerted(n, cs, k) <==> Alerted(h, cs, k)
  {
    if Alerted(n, cs, k) {
      var m: nat :| m < |n.nics| && n.nics[m].node == k && HeardIn(n, cs, m) != [];
      assert HeardIn(h, cs, m) != [];
    }
    if Alerted(h, cs, k) {
      var m: nat :| m < |h.nics| && h.nics[m].node == k && HeardIn(h, cs, m) != [];
      assert HeardIn(n, cs, m) != [];
    }
  }

  /** Handling one entry does not change which of the others arrive, or with what. */
  lemma {:induction false} ArrivingSame(n: Lan, k: Lan, es: seq<Entry>)
    requires SameWiring(n, k) && Held(n, es)
    requires forall i :: 0 <= i < |es| ==> es[i].id in k.delayed && k.delayed[es[i].id] == n.delayed[es[i].id]
    ensures Arriving(n, es) == Arriving(k, es)
  {
    if es != [] {
      var src := n.delayed[es[0].id].src;
      if src < |n.nics| { assert n.nics[src].(rxq := []) == k.nics[src].(rxq := []); }
      ArrivingSame(n, k, es[1..]);
    }
  }

  lemma {:induction false} MatureSpreads(n: Lan, es: seq<Entry>)
    requires QueuesOk(n.nics) && Held(n, es)
    ensures Spread(n, Arriving(n, es), Mature(n, es))
    decreases |es|
  {
    if es == [] {
      SpreadNone(n, n);
    } else {
      var k, t := MatureOne(n, es[0]), es[1..];
      MatureOneTakes(n, es[0]);
      MatureSpreads(k, t);
      ArrivingSame(n, k, t);
      if Arrives(n, es[0]) {
        var c := n.delayed[es[0].id];
        DeliverIgnoresHeap(n, es[0], c);
        SpreadMore(n, c, Arriving(n, t), k, Mature(n, es));
      } else {
        SpreadSame(n, k, Arriving(n, t), Mature(n, es));
        assert Arriving(n, es) == Arriving(n, t);
      }
    }
  }

  lemma DeliverIgnoresHeap(n: Lan, e: Entry, c: Copy)
    ensures DeliveredNics(Remove(n, e), c) == DeliveredNics(n, c) && DeliveredIrq(Remove(n, e), c) == DeliveredIrq(n, c)
  {
    var r := Remove(n, e);
    forall m: nat ensures Hears(r, c, m) == Hears(n, c, m) { }
    forall k: nat ensures HeardOn(r, c, k) == HeardOn(n, c, k) {
      if HeardOn(n, c, k) {
        var m: nat :| Hears(n, c, m) && n.nics[m].node == k;
        assert Hears(r, c, m);
      }
    }
  }

  /** What a step offers is what the queues and flags show. */
  lemma StepSpreads(n: Lan, st: Step)
    requires LanOk(n) && Enabled(n, st) && (st.Sent? || st.Matured?)
    ensures Spread(n, Carried(n, st), Apply(n, st))
  {
    if st.Matured? {
      DueHeld(n, st.now);
      MatureSpreads(n, Ordered(Due(n.heap, st.now)));
    } else if !Carrier(n, st.nic) {
      SpreadNone(n, n);
    } else {
      var s := SegOf(n, st.nic);
      var f := n.segs[s].faults;
      if Chance(f.dropPct, st.luck.drop) {
        SpreadNone(n, Apply(n, st));
      } else {
        var c, ds := Copy(s, st.nic, Outgoing(f, st.frame, st.luck)), Delays(f, st.luck);
        var k := CountCopies(CountFrame(n, s), s, |ds|);
        LaunchSpreads(k, st.now, c, ds);
        SpreadSame(n, k, Instant(c, ds), Apply(n, st));
      }
    }
  }

  /** Each copy is either offered at once or held under a new identifier until after `now`. */
  lemma {:induction false} LaunchAccounts(n: Lan, now: int, c: Copy, ds: seq<nat>)
    ensures var l := Launch(n, now, c, ds);
      && n.lastId <= l.lastId && |Instant(c, ds)| + (l.lastId - n.lastId) == |ds|
      && HeldAnew(n, now, c, l)
    decreases |ds|
  {
    if ds == [] {
    } else if ds[0] == 0 {
      LaunchAccounts(Deliver(n, c), now, c, ds[1..]);
    } else {
      LaunchAccounts(Hold(n, now + ds[0], c), now, c, ds[1..]);
      HeldFirst(n, now, now + ds[0], c, Launch(n, now, c, ds));
    }
  }

  lemma HeldFirst(n: Lan, now: int, due: int, c: Copy, l: Lan)
    requires HeldAnew(Hold(n, due, c), now, c, l) && now < due && n.lastId < l.lastId
    ensures HeldAnew(n, now, c, l)
  {
  }

  /** New in the map is copy `c` under each new identifier, and new in the heap are entries for them, all later than `now`. */
  ghost predicate HeldAnew(n: Lan, now: int, c: Copy, l: Lan) {
    && (forall id :: id in l.delayed <==> id in n.delayed || n.lastId < id <= l.lastId)
    && (forall id :: n.lastId < id <= l.lastId ==> l.delayed[id] == c)
    && (forall id :: id in n.delayed && id <= n.lastId ==> l.delayed[id] == n.delayed[id])
    && (forall e :: e in n.heap ==> e in l.heap)
    && (forall e :: e in l.heap && e !in n.heap ==> n.lastId < e.id <= l.lastId && e.seg == c.seg && now < e.due)
  }

  /** A transmission that is not dropped: `made` copies, at once or held. */
  ghost predicate Accounted(n: Lan, s: nat, now: int, c: Copy, made: int, t: Lan)
    requires s < |n.segs|
  {
    && made >= 0 && |t.segs| == |n.segs| && (forall o :: 0 <= o < |n.segs| && o != s ==> t.segs[o] == n.segs[o])
    && t.segs[s] == n.segs[s].(frames := n.segs[s].frames + 1, copies := n.segs[s].copies + made)
    && HeldAnew(n, now, c, t)
  }

  lemma CountedLaunch(n: Lan, s: nat, now: int, c: Copy, ds: seq<nat>)
    requires s < |n.segs|
    ensures var t := Launch(CountCopies(CountFrame(n, s), s, |ds|), now, c, ds);
      |Instant(c, ds)| + (t.lastId - n.lastId) == |ds| && Accounted(n, s, now, c, |ds|, t)
  {
    var k := CountCopies(CountFrame(n, s), s, |ds|);
    LaunchAccounts(k, now, c, ds);
    LaunchWiring(k, now, c, ds);
  }

  /** Every transmission is accounted for: without carrier nothing changes; otherwise one frame more is counted on that
      segment, and either it is dropped and nothing else changes, or one copy of it or two are offered or held. */
  lemma TransmitAccounts(n: Lan, nic: nat, frame: Frame, now: int, luck: Luck)
    requires LanOk(n) && nic < |n.nics|
    ensures var t := Transmit(n, nic, frame, now, luck);
      if !Carrier(n, nic) then t == n
      else
        var s := SegOf(n, nic);
        var g, f := n.segs[s], n.segs[s].faults;
        var made := |Carried(n, Sent(nic, frame, now, luck))| + (t.lastId - n.lastId);
        if Chance(f.dropPct, luck.drop)
        then t == n.(segs := n.segs[s := g.(frames := g.frames + 1, dropped := g.dropped + 1)])
        else made == (if Chance(f.dupPct, luck.dup) then 2 else 1)
             && Accounted(n, s, now, Copy(s, nic, Outgoing(f, frame, luck)), made, t)
  {
    if Carrier(n, nic) {
      var s := SegOf(n, nic);
      var f := n.segs[s].faults;
      if !Chance(f.dropPct, luck.drop) {
        CountedLaunch(n, s, now, Copy(s, nic, Outgoing(f, frame, luck)), Delays(f, luck));
      }
    }
  }
}
