/** The network as it is: an object whose methods change queues, counters, the heap and the flags in place. Its ghost
    history shows that whatever they do is a run, so what is proved of all runs holds of the object. */
module NetLoop {
  import opened Prelude
  import opened Net
  import NetRuns
  import Tamper

  class Network {
    var nics: seq<Nic>
    var nodeNics: seq<seq<nat>>
    var segs: seq<Segment>
    var heap: set<Entry>
    var delayed: map<nat, Copy>
    var lastId: nat
    var irq: seq<bool>
    ghost var states: seq<Lan>
    ghost var steps: seq<NetRuns.Step>

    function State(): Lan
      reads this
    {
      Lan(nics, nodeNics, segs, heap, delayed, lastId, irq)
    }

    /** The calls so far are a run that ends here; so the invariant of all runs holds. */
    ghost predicate Valid()
      reads this
    {
      NetRuns.Run(states, steps) && states[|steps|] == State() && LanOk(State())
    }

    constructor ()
      ensures Valid() && State() == NOTHING && steps == []
    {
      nics, nodeNics, segs, heap, delayed, lastId, irq := [], [], [], {}, map[], 0, [];
      states, steps := [NOTHING], [];
      NetRuns.NoStepYet();
    }

    /** One call more. */
    ghost method Note(st: NetRuns.Step)
      requires NetRuns.Run(states, steps) && NetRuns.Follows(states[|steps|], st, State())
      modifies this`states, this`steps
      ensures Valid() && steps == old(steps) + [st]
    {
      NetRuns.RunGrows(states, steps, st, State());
      states, steps := states + [State()], steps + [st];
      NetRuns.RunOk(states, steps, |steps|);
    }

    // ---------------------------------------------------------- computers and cables

    method DoAddNode(ifaces: nat) returns (node: nat)
      requires Valid()
      modifies this
      ensures Valid() && steps == old(steps) + [NetRuns.NodeAdded(ifaces)]
      ensures State() == AddNode(old(State()), ifaces) && node == |old(nodeNics)|
    {
      node := |nodeNics|;
      var list: seq<nat> := [];
      var i := 0;
      while i < ifaces
        invariant 0 <= i <= ifaces
        invariant list == seq(i, j requires 0 <= j < i => |old(nics)| + j)
        invariant nics == old(nics) + seq(i, j requires 0 <= j < i => NewNic(node, j))
        invariant State() == old(State()).(nics := nics) && states == old(states) && steps == old(steps)
      {
        list := list + [|nics|];
        nics := nics + [NewNic(node, i)];
        i := i + 1;
      }
      nodeNics := nodeNics + [list];
      irq := irq + [false];
      Note(NetRuns.NodeAdded(ifaces));
    }

    method DoAddSegment(members: seq<nat>, faults: Faults) returns (r: Option<CableError>)
      requires Valid() && Known(State(), members)
      modifies this
      ensures Valid() && steps == old(steps) + [NetRuns.CabledUp(members, faults)]
      ensures r == CableProblem(old(State()), members) && State() == AddSegment(old(State()), members, faults)
    {
      r := FindProblem(members);
      if r.None? {
        CableUp(members, faults);
      }
      Note(NetRuns.CabledUp(members, faults));
    }

    method FindProblem(members: seq<nat>) returns (r: Option<CableError>)
      requires Known(State(), members)
      ensures r == CableProblem(State(), members)
    {
      if |members| < 2 {
        return Some(TooFew);
      }
      var k := 0;
      while k < |members|
        invariant 0 <= k <= |members| && Problem(State(), members, k) == Problem(State(), members, 0)
      {
        if members[k] in members[..k] {
          return Some(Twice(members[k]));
        }
        if nics[members[k]].seg.Some? {
          return Some(Cabled(members[k]));
        }
        k := k + 1;
      }
      r := None;
    }

    method CableUp(members: seq<nat>, faults: Faults)
      requires Known(State(), members) && CableProblem(State(), members).None?
      modifies this`nics, this`segs
      ensures State() == AddSegment(old(State()), members, faults)
    {
      var id := |segs|;
      var k := 0;
      while k < |members|
        invariant 0 <= k <= |members| && State() == old(State()).(nics := nics) && |nics| == |old(nics)|
        invariant forall m :: 0 <= m < |nics| ==>
                                nics[m] == if m in members[..k] then old(nics)[m].(seg := Some(id)) else old(nics)[m]
      {
        assert members[..k + 1] == members[..k] + [members[k]];
        nics := nics[members[k] := nics[members[k]].(seg := Some(id))];
        k := k + 1;
      }
      assert members[..k] == members;
      segs := segs + [Segment(members, true, faults, 0, 0, 0)];
    }

    method DoSetAdmin(nic: nat, up: bool)
      requires Valid() && nic < |nics|
      modifies this
      ensures Valid() && steps == old(steps) + [NetRuns.AdminSet(nic, up)]
      ensures State() == SetAdmin(old(State()), nic, up)
    {
      nics := nics[nic := nics[nic].(adminUp := up)];
      if !up {
        nics := nics[nic := nics[nic].(rxq := [])];
      }
      Note(NetRuns.AdminSet(nic, up));
    }

    method DoSetPromisc(nic: nat, on: bool)
      requires Valid() && nic < |nics|
      modifies this
      ensures Valid() && steps == old(steps) + [NetRuns.PromiscSet(nic, on)]
      ensures State() == SetPromisc(old(State()), nic, on)
    {
      nics := nics[nic := nics[nic].(promisc := on)];
      Note(NetRuns.PromiscSet(nic, on));
    }

    method DoSetFaults(seg: nat, faults: Faults)
      requires Valid() && seg < |segs|
      modifies this
      ensures Valid() && steps == old(steps) + [NetRuns.FaultsSet(seg, faults)]
      ensures State() == SetFaults(old(State()), seg, faults)
    {
      segs := segs[seg := segs[seg].(faults := faults)];
      Note(NetRuns.FaultsSet(seg, faults));
    }

    /** A cable named by its segment. */
    method DoSetSegment(seg: nat, up: bool)
      requires Valid() && seg < |segs|
      modifies this
      ensures Valid() && steps == old(steps) + [NetRuns.SegmentSet(seg, up)]
      ensures State() == SetSegmentUp(old(State()), seg, up)
    {
      segs := segs[seg := segs[seg].(up := up)];
      Note(NetRuns.SegmentSet(seg, up));
    }

    /** A cable named by a face on it; false if there is none. */
    method DoSetCable(nic: nat, up: bool) returns (ok: bool)
      requires Valid() && nic < |nics|
      modifies this
      ensures Valid() && steps == old(steps) + [NetRuns.CableSet(nic, up)]
      ensures ok <==> SetCable(old(State()), nic, up).Some?
      ensures State() == if ok then SetCable(old(State()), nic, up).value else old(State())
    {
      ok := nics[nic].seg.Some?;
      if ok {
        var s := nics[nic].seg.value;
        if |segs[s].members| == 2 {
          segs := segs[s := segs[s].(up := up)];
        } else {
          nics := nics[nic := nics[nic].(attached := up)];
        }
      }
      Note(NetRuns.CableSet(nic, up));
    }

    // ---------------------------------------------------------- delivering

    /** Push a frame, dropping the oldest when the queue is full. */
    method Push(m: nat, f: Frame)
      requires m < |nics| && |nics[m].rxq| <= QUEUE_CAP
      modifies this`nics
      ensures nics == old(nics)[m := Enqueue(old(nics)[m], f)]
    {
      ghost var q := nics[m].rxq;
      if |nics[m].rxq| >= QUEUE_CAP {
        nics := nics[m := nics[m].(rxq := nics[m].rxq[1..])];
        assert q[1..] + [f] == (q + [f])[1..];
      }
      nics := nics[m := nics[m].(rxq := nics[m].rxq + [f])];
    }

    /** NIC `m` filters the frame. */
    method Offer(c: Copy, m: nat)
      requires m < |nics| && |nics[m].rxq| <= QUEUE_CAP && nics[m].node < |irq|
      modifies this`nics, this`irq
      ensures nics == OfferedNics(old(nics), c, m) && irq == OfferedIrq(old(irq), old(nics), c, m)
    {
      if m != c.src && nics[m].attached && nics[m].adminUp && Accepts(nics[m], c.frame) {
        Push(m, c.frame);
        irq := irq[nics[m].node := true];
      }
    }

    method DoDeliver(c: Copy)
      requires LanOkButCounts(State()) && c.seg < |segs|
      modifies this`nics, this`irq
      ensures State() == Deliver(old(State()), c)
    {
      ghost var n := State();
      if !segs[c.seg].up {
        NobodyHears(n, c);
        return;
      }
      var members := segs[c.seg].members;
      var k := 0;
      PartlyNone(n, c);
      while k < |members|
        invariant 0 <= k <= |members| && State() == n.(nics := nics, irq := irq)
        invariant Partly(n, c, members[..k], nics, irq)
      {
        NotYet(members, k);
        PartlyMore(n, c, members[..k], members[k], nics, irq);
        assert members[..k + 1] == members[..k] + [members[k]];
        Offer(c, members[k]);
        k := k + 1;
      }
      assert members[..k] == members;
      PartlyAll(n, c, nics, irq);
    }

    /** One copy comes off the heap. A cable pulled while it was under way loses it. */
    method PopOne(e: Entry)
      requires LanOk(State()) && e in heap
      modifies this`nics, this`irq, this`heap, this`delayed
      ensures State() == MatureOne(old(State()), e)
    {
      ghost var n := State();
      heap := heap - {e};
      if e.id in delayed {
        var c := delayed[e.id];
        delayed := delayed - {e.id};
        var attached := nics[c.src].attached;
        if attached {
          RemoveKeepsFlight(n, e);
          DoDeliver(c);
        }
      }
    }

    /** Deliver the delayed copies whose time has come, in heap order. */
    method DoDeliverDue(now: int) returns (any: bool)
      requires Valid()
      modifies this
      ensures Valid() && steps == old(steps) + [NetRuns.Matured(now)]
      ensures State() == DeliverDue(old(State()), now)
      ensures any <==> Due(old(heap), now) != {}
    {
      any := TakeDue(now);
      Note(NetRuns.Matured(now));
    }

    method TakeDue(now: int) returns (any: bool)
      requires LanOk(State())
      modifies this`nics, this`irq, this`heap, this`delayed
      ensures State() == DeliverDue(old(State()), now)
      ensures any <==> Due(old(heap), now) != {}
    {
      any := false;
      while heap != {}
        invariant LanOk(State()) && DeliverDue(State(), now) == DeliverDue(old(State()), now)
        invariant if any then Due(old(heap), now) != {} else heap == old(heap)
        decreases |heap|
      {
        assert exists e :: IsLeast(e, heap) by { var x := LeastExists(heap); }
        var e :| e in heap && forall x :: x in heap ==> x == e || Before(e, x);
        if e.due > now {
          NothingDue(State(), e, now);
          return;
        }
        LeastIsDue(State(), e, now);
        MatureOneKeeps(State(), e);
        MatureOneTakes(State(), e);
        assert e in Due(heap, now);
        PopOne(e);
        any := true;
      }
      NoneDue(State(), now);
    }

    /** The earliest due time of a delayed copy. */
    method NextDelivery() returns (t: Option<int>)
      ensures t.None? <==> heap == {}
      ensures t.Some? ==> (exists e :: e in heap && e.due == t.value) && forall e :: e in heap ==> t.value <= e.due
    {
      if heap == {} {
        return None;
      }
      assert exists e :: IsLeast(e, heap) by { var x := LeastExists(heap); }
      var e :| e in heap && forall x :: x in heap ==> x == e || Before(e, x);
      t := Some(e.due);
      forall x | x in heap ensures e.due <= x.due {
        assert x == e || Before(e, x);
      }
    }

    // ---------------------------------------------------------- transmitting

    /** One delay for each copy. */
    method DrawDelays(f: Faults, luck: Luck) returns (delays: seq<nat>)
      ensures delays == Delays(f, luck)
    {
      var copies := if Chance(f.dupPct, luck.dup) then 2 else 1;
      delays := [];
      for i := 0 to copies
        invariant |delays| == i
        invariant forall j :: 0 <= j < i ==> delays[j] == Delay(f, if j == 0 then luck.late0 else luck.late1)
      {
        var d := Max(f.delayMs, 0);
        if Chance(f.reorderPct, if i == 0 then luck.late0 else luck.late1) {
          d := d + Max(f.reorderMs, 1);
        }
        delays := delays + [d];
      }
    }

    method Mutate(f: Faults, frame: Frame, luck: Luck) returns (r: Frame)
      ensures r == Outgoing(f, frame, luck)
    {
      r := frame;
      if f.tamperPct > 0.0 && Chance(f.tamperPct, luck.tamper) {
        var owned := new byte[|frame|](i requires 0 <= i < |frame| => frame[i]);
        assert owned[..] == frame;
        var done := Tamper.TamperFrame(owned, f.tamperPort, luck.pick);
        if done {
          r := owned[..];
        }
      }
    }

    method LaunchOne(now: int, c: Copy, d: nat)
      requires LanOkButCounts(State()) && c.seg < |segs|
      modifies this`nics, this`irq, this`heap, this`delayed, this`lastId
      ensures State() == Launch(old(State()), now, c, [d])
    {
      assert [d][1..] == [];
      if d == 0 {
        DoDeliver(c);
      } else {
        lastId := lastId + 1;
        heap := heap + {Entry(now + d, lastId, c.seg)};
        delayed := delayed[lastId := c];
        assert State() == Hold(old(State()), now + d, c);
      }
    }

    method DoLaunch(now: int, c: Copy, delays: seq<nat>)
      requires LanOkButCounts(State()) && OnSegment(nics, |segs|, c)
      modifies this`nics, this`irq, this`heap, this`delayed, this`lastId
      ensures State() == Launch(old(State()), now, c, delays)
    {
      var i := 0;
      assert delays[0..] == delays;
      while i < |delays|
        invariant 0 <= i <= |delays| && LanOkButCounts(State()) && OnSegment(nics, |segs|, c)
        invariant Launch(State(), now, c, delays[i..]) == Launch(old(State()), now, c, delays)
      {
        LaunchFirst(State(), now, c, delays[i..]);
        assert delays[i..][1..] == delays[i + 1..];
        LaunchOne(now, c, delays[i]);
        i := i + 1;
      }
    }

    method SendClean(s: nat, nic: nat, frame: Frame)
      requires LanOk(State()) && s < |segs|
      modifies this`nics, this`irq, this`segs
      ensures State() == Deliver(CountCopies(CountFrame(old(State()), s), s, 1), Copy(s, nic, frame))
    {
      ghost var n := State();
      segs := segs[s := segs[s].(frames := segs[s].frames + 1)];
      segs := segs[s := segs[s].(copies := segs[s].copies + 1)];
      assert State() == CountCopies(CountFrame(n, s), s, 1);
      SlotsKeep(n, State());
      DoDeliver(Copy(s, nic, frame));
    }

    method SendFaulty(s: nat, nic: nat, frame: Frame, now: int, luck: Luck)
      requires LanOk(State()) && Carrier(State(), nic) && s == SegOf(State(), nic)
      modifies this`nics, this`irq, this`heap, this`delayed, this`lastId, this`segs
      ensures State() == Transmit(old(State()), nic, frame, now, luck)
    {
      ghost var n := State();
      segs := segs[s := segs[s].(frames := segs[s].frames + 1)];
      var f := segs[s].faults;
      if Chance(f.dropPct, luck.drop) {
        segs := segs[s := segs[s].(dropped := segs[s].dropped + 1)];
        return;
      }
      var sent := Mutate(f, frame, luck);
      var delays := DrawDelays(f, luck);
      segs := segs[s := segs[s].(copies := segs[s].copies + |delays|)];
      assert State() == CountCopies(CountFrame(n, s), s, |delays|);
      SlotsKeep(n, State());
      DoLaunch(now, Copy(s, nic, sent), delays);
    }

    /** False only for frames of illegal size. */
    method DoTransmit(nic: nat, frame: seq<byte>, now: int, luck: Luck) returns (ok: bool)
      requires Valid() && nic < |nics|
      modifies this
      ensures ok <==> 14 <= |frame| <= 1518
      ensures Valid() && steps == old(steps) + if ok then [NetRuns.Sent(nic, frame, now, luck)] else []
      ensures State() == if ok then Transmit(old(State()), nic, frame, now, luck) else old(State())
    {
      if |frame| < 14 || |frame| > 1518 {
        return false;
      }
      ok := true;
      Send(nic, frame, now, luck);
      Note(NetRuns.Sent(nic, frame, now, luck));
    }

    method Send(nic: nat, frame: Frame, now: int, luck: Luck)
      requires LanOk(State()) && nic < |nics|
      modifies this`nics, this`irq, this`heap, this`delayed, this`lastId, this`segs
      ensures State() == Transmit(old(State()), nic, frame, now, luck)
    {
      if !nics[nic].adminUp {
        return;
      }
      if nics[nic].seg.None? {
        return;
      }
      var s := nics[nic].seg.value;
      if !nics[nic].attached || !segs[s].up {
        return;
      }
      if Clean(segs[s].faults) {
        CleanIsFaultless(State(), nic, frame, now, luck);
        SendClean(s, nic, frame);
      } else {
        SendFaulty(s, nic, frame, now, luck);
      }
    }

    // ---------------------------------------------------------- taking frames and interrupts

    method PopFront(m: nat) returns (f: Frame)
      requires m < |nics| && nics[m].rxq != []
      modifies this`nics
      ensures f == old(nics)[m].rxq[0] && nics == old(nics)[m := old(nics)[m].(rxq := old(nics)[m].rxq[1..])]
    {
      f := nics[m].rxq[0];
      nics := nics[m := nics[m].(rxq := nics[m].rxq[1..])];
    }

    /** Round-robin over the computer's faces; `rr` is the turn, `rr'` the next. */
    method DoRxAny(node: nat, rr: nat) returns (rr': nat, got: Option<(nat, Frame)>)
      requires Valid()
      modifies this
      ensures Valid() && steps == old(steps) + [NetRuns.Taken(node, rr)] && ListsOk(old(State()))
      ensures Received(State(), rr', got) == RxAny(old(State()), node, rr)
    {
      rr', got := TakeNext(node, rr);
      Note(NetRuns.Taken(node, rr));
    }

    method TakeNext(node: nat, rr: nat) returns (rr': nat, got: Option<(nat, Frame)>)
      requires ListsOk(State())
      modifies this`nics
      ensures Received(State(), rr', got) == RxAny(old(State()), node, rr)
    {
      if node >= |nodeNics| {
        return rr, None;
      }
      var list := nodeNics[node];
      var k := 0;
      while k < |list|
        invariant 0 <= k <= |list| && State() == old(State())
        invariant FirstTurn(State(), list, rr, k) == FirstTurn(State(), list, rr, 0)
      {
        var i := (rr + k) % |list|;
        if nics[list[i]].rxq != [] {
          assert RxAny(old(State()), node, rr) == TakeFrom(State(), list, i);
          var f := PopFront(list[i]);
          return (i + 1) % |list|, Some((i, f));
        }
        k := k + 1;
      }
      return rr, None;
    }

    method DoTakeIrq(node: nat) returns (was: bool)
      requires Valid() && node < |irq|
      modifies this
      ensures Valid() && steps == old(steps) + [NetRuns.IrqTaken(node)]
      ensures was == old(irq)[node] && State() == TakeIrq(old(State()), node)
    {
      was := irq[node];
      irq := irq[node := false];
      Note(NetRuns.IrqTaken(node));
    }
  }

  // ------------------------------------------------------------ for the delivery loop

  predicate Wants(nics: seq<Nic>, c: Copy, m: nat)
    requires m < |nics|
  {
    m != c.src && nics[m].attached && nics[m].adminUp && Accepts(nics[m], c.frame)
  }

  function OfferedNics(nics: seq<Nic>, c: Copy, m: nat): seq<Nic>
    requires m < |nics|
  {
    if Wants(nics, c, m) then nics[m := Enqueue(nics[m], c.frame)] else nics
  }

  function OfferedIrq(irq: seq<bool>, nics: seq<Nic>, c: Copy, m: nat): seq<bool>
    requires m < |nics| && nics[m].node < |irq|
  {
    if Wants(nics, c, m) then irq[nics[m].node := true] else irq
  }

  /** What the loop has done once it has been past the members `ms`. */
  ghost predicate Partly(n: Lan, c: Copy, ms: seq<nat>, nics: seq<Nic>, irq: seq<bool>) {
    && |nics| == |n.nics| && |irq| == |n.irq|
    && (forall m :: 0 <= m < |nics| ==>
                      nics[m] == if m in ms && Hears(n, c, m) then Enqueue(n.nics[m], c.frame) else n.nics[m])
    && (forall k :: 0 <= k < |irq| ==> (irq[k] <==> n.irq[k] || HeardAmong(n, c, ms, k)))
  }

  lemma PartlyNone(n: Lan, c: Copy)
    ensures Partly(n, c, [], n.nics, n.irq)
  {
  }

  lemma PartlyMore(n: Lan, c: Copy, ms: seq<nat>, m: nat, nics: seq<Nic>, irq: seq<bool>)
    requires Partly(n, c, ms, nics, irq) && c.seg < |n.segs| && n.segs[c.seg].up
    requires m in n.segs[c.seg].members && m !in ms && m < |n.nics| && n.nics[m].node < |n.irq|
    ensures nics[m] == n.nics[m]
    ensures Partly(n, c, ms + [m], OfferedNics(nics, c, m), OfferedIrq(irq, nics, c, m))
  {
    HeardAmongOneMore(n, c, ms, m);
    assert Wants(nics, c, m) <==> Hears(n, c, m);
  }

  lemma PartlyAll(n: Lan, c: Copy, nics: seq<Nic>, irq: seq<bool>)
    requires c.seg < |n.segs| && Partly(n, c, n.segs[c.seg].members, nics, irq)
    ensures nics == DeliveredNics(n, c) && irq == DeliveredIrq(n, c)
  {
    AllHeardAmong(n, c);
  }

  ghost predicate HeardAmong(n: Lan, c: Copy, ms: seq<nat>, node: nat) {
    exists m: nat :: m in ms && Hears(n, c, m) && n.nics[m].node == node
  }

  lemma HeardAmongOneMore(n: Lan, c: Copy, ms: seq<nat>, m: nat)
    ensures forall k: nat :: HeardAmong(n, c, ms + [m], k) <==>
                               HeardAmong(n, c, ms, k) || (Hears(n, c, m) && n.nics[m].node == k)
  {
    forall k: nat
      ensures HeardAmong(n, c, ms + [m], k) <==> HeardAmong(n, c, ms, k) || (Hears(n, c, m) && n.nics[m].node == k)
    {
      if HeardAmong(n, c, ms, k) {
        var x: nat :| x in ms && Hears(n, c, x) && n.nics[x].node == k;
        assert x in ms + [m];
      }
      if Hears(n, c, m) && n.nics[m].node == k { assert m in ms + [m]; }
    }
  }

  lemma AllHeardAmong(n: Lan, c: Copy)
    requires c.seg < |n.segs|
    ensures forall k: nat :: HeardAmong(n, c, n.segs[c.seg].members, k) <==> HeardOn(n, c, k)
  {
  }

  lemma NobodyHears(n: Lan, c: Copy)
    requires c.seg < |n.segs| && !n.segs[c.seg].up
    ensures Deliver(n, c) == n
  {
    assert DeliveredNics(n, c) == n.nics && DeliveredIrq(n, c) == n.irq;
  }

  lemma NotYet(members: seq<nat>, k: nat)
    requires Distinct(members) && k < |members|
    ensures members[k] !in members[..k]
  {
  }

  /** The heap's least entry, if due, is the first of the due ones. */
  lemma LeastIsDue(n: Lan, e: Entry, now: int)
    requires IsLeast(e, n.heap) && e.due <= now
    ensures DeliverDue(n, now) == DeliverDue(MatureOne(n, e), now)
  {
    var d := Due(n.heap, now);
    assert IsLeast(e, d);
    assert Least(d) == e;
    MatureOneTakes(n, e);
    assert Due(n.heap - {e}, now) == d - {e};
    assert Ordered(d) == [e] + Ordered(d - {e});
    assert Ordered(d)[1..] == Ordered(d - {e});
  }

  lemma NothingDue(n: Lan, e: Entry, now: int)
    requires IsLeast(e, n.heap) && e.due > now
    ensures Due(n.heap, now) == {} && DeliverDue(n, now) == n
  {
    forall x | x in n.heap ensures x.due > now {
      assert x == e || Before(e, x);
    }
    assert Due(n.heap, now) == {};
  }

  lemma NoneDue(n: Lan, now: int)
    ensures n.heap == {} ==> Due(n.heap, now) == {} && DeliverDue(n, now) == n
  {
    if n.heap == {} { assert Due(n.heap, now) == {}; }
  }

  /** One copy is launched, then the others. */
  lemma LaunchFirst(n: Lan, now: int, c: Copy, ds: seq<nat>)
    requires LanOkButCounts(n) && OnSegment(n.nics, |n.segs|, c) && ds != []
    ensures var m := Launch(n, now, c, [ds[0]]);
      && LanOkButCounts(m) && OnSegment(m.nics, |m.segs|, c) && Launch(m, now, c, ds[1..]) == Launch(n, now, c, ds)
  {
    LaunchKeeps(n, now, c, [ds[0]]);
    assert [ds[0]][1..] == [];
    if ds[0] == 0 {
      assert Launch(n, now, c, [0]) == Launch(Deliver(n, c), now, c, []);
    } else {
      assert Launch(n, now, c, [ds[0]]) == Launch(Hold(n, now + ds[0], c), now, c, []);
    }
    LaunchWiring(n, now, c, [ds[0]]);
    assert n.nics[c.src].(rxq := []) == Launch(n, now, c, [ds[0]]).nics[c.src].(rxq := []);
  }
}
