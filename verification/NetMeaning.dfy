/** What a transmission does, in addresses, cables and clock times: who gets a frame and who does not, when the late
    copies are due, and what the other operations leave. */
module NetMeaning {
  import opened Prelude
  import opened Net
  import Arith
  import Tamper

  // ------------------------------------------------------------ who gets a frame

  /** NIC `nic` can send: it is up, plugged in, and its segment `s` is live. */
  ghost predicate CanSend(n: Lan, nic: nat, s: nat) {
    && nic < |n.nics| && n.nics[nic].adminUp && n.nics[nic].attached && n.nics[nic].seg == Some(s)
    && s < |n.segs| && n.segs[s].up
  }

  /** Another member of the segment, plugged in and up. */
  ghost predicate Listens(n: Lan, nic: nat, s: nat, m: nat) {
    && s < |n.segs| && m in n.segs[s].members && m != nic
    && m < |n.nics| && n.nics[m].attached && n.nics[m].adminUp
  }

  /** Addressed to the NIC, or to a group, or the NIC takes everything. */
  ghost predicate Wanted(x: Nic, frame: Frame) {
    x.mac == frame[..6] || frame[0] % 2 != 0 || x.promisc
  }

  ghost predicate NoFaults(f: Faults) {
    f.dropPct <= 0.0 && f.delayMs <= 0 && f.dupPct <= 0.0 && f.reorderPct <= 0.0 && f.tamperPct <= 0.0
  }

  /** On a fault-free segment every other member that is plugged in and up, and that the frame is for, has it last
      in its queue, behind what was there and without the oldest if 256 were, and its computer is interrupted. */
  lemma FrameArrives(n: Lan, nic: nat, s: nat, frame: Frame, now: int, luck: Luck, m: nat)
    requires LanOk(n) && CanSend(n, nic, s) && NoFaults(n.segs[s].faults)
    requires Listens(n, nic, s, m) && Wanted(n.nics[m], frame)
    ensures var t := Transmit(n, nic, frame, now, luck);
      var q := n.nics[m].rxq;
      && |t.nics| == |n.nics| && |t.irq| == |n.irq| && n.nics[m].node < |t.irq|
      && t.nics[m].rxq == (if |q| < 256 then q else q[1..]) + [frame]
      && t.irq[n.nics[m].node]
  {
    CleanIsFaultless(n, nic, frame, now, luck);
    var k, c := CountCopies(CountFrame(n, s), s, 1), Copy(s, nic, frame);
    assert Hears(k, c, m) && HeardOn(k, c, n.nics[m].node);
    var q := n.nics[m].rxq;
    if |q| == 256 { assert (q + [frame])[1..] == q[1..] + [frame]; }
  }

  /** Nothing to do with the frame: NIC `m` is the sender, or on no cable with it, or unplugged, or down; or the frame
      is for one receiver, not `m`, and `m` does not take everything. */
  ghost predicate NotFor(n: Lan, nic: nat, s: nat, frame: Frame, m: nat)
    requires s < |n.segs| && m < |n.nics|
  {
    || !Listens(n, nic, s, m)
    || (frame[0] % 2 == 0 && !n.nics[m].promisc && n.nics[m].mac != frame[..6])
  }

  lemma {:induction false} LaunchSkips(n: Lan, now: int, c: Copy, ds: seq<nat>, m: nat)
    requires m < |n.nics| && !Hears(n, c, m)
    ensures |Launch(n, now, c, ds).nics| == |n.nics| && Launch(n, now, c, ds).nics[m] == n.nics[m]
    decreases |ds|
  {
    if ds != [] {
      if ds[0] == 0 {
        LaunchSkips(Deliver(n, c), now, c, ds[1..], m);
      } else {
        LaunchSkips(Hold(n, now + ds[0], c), now, c, ds[1..], m);
      }
    }
  }

  /** Whatever the faults, a NIC that the frame is not for stays as it is. */
  lemma FrameSkips(n: Lan, nic: nat, s: nat, frame: Frame, now: int, luck: Luck, m: nat)
    requires CanSend(n, nic, s) && m < |n.nics| && NotFor(n, nic, s, frame, m)
    ensures |Transmit(n, nic, frame, now, luck).nics| == |n.nics|
    ensures Transmit(n, nic, frame, now, luck).nics[m] == n.nics[m]
  {
    var f := n.segs[s].faults;
    if !Chance(f.dropPct, luck.drop) {
      var out := Outgoing(f, frame, luck);
      Tamper.HeadStays(frame, f.tamperPort, luck.pick);
      assert out[0] == frame[0] && out[..6] == frame[..6];
      var ds := Delays(f, luck);
      LaunchSkips(CountCopies(CountFrame(n, s), s, |ds|), now, Copy(s, nic, out), ds, m);
    }
  }

  /** Without carrier nothing happens at all. */
  lemma NothingSent(n: Lan, nic: nat, frame: Frame, now: int, luck: Luck)
    requires forall s: nat :: !CanSend(n, nic, s)
    ensures Transmit(n, nic, frame, now, luck) == n
  {
    if Carrier(n, nic) { assert CanSend(n, nic, SegOf(n, nic)); }
  }

  /** A dropped frame is counted and nothing else. */
  lemma FrameDropped(n: Lan, nic: nat, s: nat, frame: Frame, now: int, luck: Luck)
    requires CanSend(n, nic, s) && n.segs[s].faults.dropPct > 0.0 && (luck.drop || n.segs[s].faults.dropPct >= 100.0)
    ensures var x := n.segs[s];
      Transmit(n, nic, frame, now, luck) ==
        n.(segs := n.segs[s := x.(frames := x.frames + 1, dropped := x.dropped + 1)])
  {
  }

  // ------------------------------------------------------------ late copies

  /** How late a copy may come: by the segment's delay, and by at least a millisecond more if it is held back, which a
      chance of 0 never and one of 100 always does. */
  ghost predicate LateBy(f: Faults, heldBack: bool, d: int) {
    var plain := if f.delayMs < 0 then 0 else f.delayMs;
    if f.reorderPct > 0.0 && (heldBack || f.reorderPct >= 100.0)
    then d == plain + (if f.reorderMs < 1 then 1 else f.reorderMs)
    else d == plain
  }

  /** The frame itself, or what the tamper fault made of it. */
  ghost predicate SentAs(f: Faults, luck: Luck, frame: Frame, out: Frame) {
    if f.tamperPct > 0.0 && (luck.tamper || f.tamperPct >= 100.0)
    then out == Tamper.After(frame, f.tamperPort, luck.pick)
    else out == frame
  }

  /** A copy that is late is held, to be delivered that much later; one that is not is not held. */
  ghost predicate HeldFor(n: Lan, t: Lan, now: int, d: int, c: Copy) {
    if d > 0
    then t.lastId == n.lastId + 1 && t.heap == n.heap + {Entry(now + d, n.lastId + 1, c.seg)}
         && t.delayed == n.delayed[n.lastId + 1 := c] && t.nics == n.nics && t.irq == n.irq
    else t.lastId == n.lastId && t.heap == n.heap && t.delayed == n.delayed
  }

  /** A frame that is neither dropped nor doubled is delivered now, or held until its delay is over. */
  lemma OneCopy(n: Lan, nic: nat, s: nat, frame: Frame, now: int, luck: Luck)
    requires CanSend(n, nic, s)
    requires var f := n.segs[s].faults;
      && (f.dropPct <= 0.0 || (f.dropPct < 100.0 && !luck.drop)) && (f.dupPct <= 0.0 || (f.dupPct < 100.0 && !luck.dup))
    ensures exists d, out :: LateBy(n.segs[s].faults, luck.late0, d) && SentAs(n.segs[s].faults, luck, frame, out)
                             && HeldFor(n, Transmit(n, nic, frame, now, luck), now, d, Copy(s, nic, out))
    ensures var t := Transmit(n, nic, frame, now, luck);
      |t.segs| == |n.segs| && t.segs[s].copies == n.segs[s].copies + 1
  {
    var f := n.segs[s].faults;
    var d, out := Delay(f, luck.late0), Outgoing(f, frame, luck);
    var k, c := CountCopies(CountFrame(n, s), s, 1), Copy(s, nic, out);
    assert Delays(f, luck) == [d];
    assert Transmit(n, nic, frame, now, luck) == Launch(k, now, c, [d]);
    LaunchOne(k, now, c, d);
    assert LateBy(f, luck.late0, d) && SentAs(f, luck, frame, out);
    assert HeldFor(n, Transmit(n, nic, frame, now, luck), now, d, c);
  }

  lemma LaunchOne(n: Lan, now: int, c: Copy, d: nat)
    ensures Launch(n, now, c, [d]) == if d == 0 then Deliver(n, c) else Hold(n, now + d, c)
  {
    assert [d][1..] == [];
  }

  lemma LaunchTwo(n: Lan, now: int, c: Copy, d: nat, e: nat)
    ensures Launch(n, now, c, [d, e]) == Launch(if d == 0 then Deliver(n, c) else Hold(n, now + d, c), now, c, [e])
  {
    assert [d, e][1..] == [e];
  }

  /** A doubled frame makes two copies, each with a delay of its own. */
  lemma TwoCopies(n: Lan, nic: nat, s: nat, frame: Frame, now: int, luck: Luck)
    requires CanSend(n, nic, s)
    requires var f := n.segs[s].faults;
      (f.dropPct <= 0.0 || (f.dropPct < 100.0 && !luck.drop)) && f.dupPct > 0.0 && (luck.dup || f.dupPct >= 100.0)
    ensures exists d, e, out, mid ::
      && LateBy(n.segs[s].faults, luck.late0, d) && LateBy(n.segs[s].faults, luck.late1, e)
      && SentAs(n.segs[s].faults, luck, frame, out)
      && HeldFor(n, mid, now, d, Copy(s, nic, out))
      && HeldFor(mid, Transmit(n, nic, frame, now, luck), now, e, Copy(s, nic, out))
    ensures var t := Transmit(n, nic, frame, now, luck);
      |t.segs| == |n.segs| && t.segs[s].copies == n.segs[s].copies + 2
  {
    var f := n.segs[s].faults;
    var d, e, out := Delay(f, luck.late0), Delay(f, luck.late1), Outgoing(f, frame, luck);
    var k, c := CountCopies(CountFrame(n, s), s, 2), Copy(s, nic, out);
    assert Delays(f, luck) == [d, e];
    var t := Transmit(n, nic, frame, now, luck);
    assert t == Launch(k, now, c, [d, e]);
    LaunchTwo(k, now, c, d, e);
    var mid := if d == 0 then Deliver(k, c) else Hold(k, now + d, c);
    LaunchOne(mid, now, c, e);
    assert HeldFor(n, mid, now, d, c) && HeldFor(mid, t, now, e, c);
    assert LateBy(f, luck.late0, d) && LateBy(f, luck.late1, e) && SentAs(f, luck, frame, out);
  }

  /** A held copy that is the only one due reaches a member as a frame sent now would; if its sender's cable was pulled
      meanwhile it reaches nobody. */
  lemma LateCopyArrives(n: Lan, e: Entry, now: int, m: nat)
    requires LanOk(n) && e in n.heap && e.due <= now && (forall x :: x in n.heap && x != e ==> now < x.due)
    requires m < |n.nics|
    ensures var c, t, q := n.delayed[e.id], DeliverDue(n, now), n.nics[m].rxq;
      && |t.nics| == |n.nics|
      && (!n.nics[c.src].attached ==> t.nics == n.nics && t.irq == n.irq)
      && (n.nics[c.src].attached && n.segs[c.seg].up && Listens(n, c.src, c.seg, m) && Wanted(n.nics[m], c.frame) ==>
            && |t.irq| == |n.irq| && n.nics[m].node < |t.irq|
            && t.nics[m].rxq == (if |q| < 256 then q else q[1..]) + [c.frame] && t.irq[n.nics[m].node])
  {
    OnlyOneDue(n, e, now);
    var k, c := Remove(n, e), n.delayed[e.id];
    assert DeliverDue(n, now) == MatureOne(n, e);
    if n.nics[c.src].attached && n.segs[c.seg].up && Listens(n, c.src, c.seg, m) && Wanted(n.nics[m], c.frame) {
      assert Hears(k, c, m) && HeardOn(k, c, n.nics[m].node);
      var q := n.nics[m].rxq;
      if |q| == 256 { assert (q + [c.frame])[1..] == q[1..] + [c.frame]; }
    }
  }

  lemma OnlyOneDue(n: Lan, e: Entry, now: int)
    requires e in n.heap && e.due <= now && (forall x :: x in n.heap && x != e ==> now < x.due)
    ensures DeliverDue(n, now) == MatureOne(n, e)
  {
    assert Due(n.heap, now) == {e};
    OrderedIsTheSortedList({e}, [e]);
    assert [e][1..] == [];
    assert Mature(n, [e]) == Mature(MatureOne(n, e), []);
  }

  // ------------------------------------------------------------ computers and cables

  /** A new computer gets one face after another: up, plugged in but not cabled, nothing waiting, and an address that
      spells the face and the computer's number. */
  lemma NewComputer(n: Lan, ifaces: nat, i: nat)
    requires i < ifaces
    ensures var t, k := AddNode(n, ifaces), |n.nics| + i;
      && |t.nics| == |n.nics| + ifaces && |t.nodeNics| == |n.nodeNics| + 1 && |t.irq| == |n.irq| + 1 && !t.irq[|n.irq|]
      && t.nics[..|n.nics|] == n.nics && t.nodeNics[..|n.nodeNics|] == n.nodeNics
      && |t.nodeNics[|n.nodeNics|]| == ifaces && t.nodeNics[|n.nodeNics|][i] == k
      && t.nics[k].adminUp && t.nics[k].attached && !t.nics[k].promisc && t.nics[k].seg.None? && t.nics[k].rxq == []
      && t.nics[k].node == |n.nodeNics| && t.nics[k].iface == i && |t.nics[k].mac| == 6
      && t.nics[k].mac[0] == 2 && t.nics[k].mac[1] == i % 256 && t.nics[k].mac[2] == 94 && t.nics[k].mac[3] == 0
      && 256 * t.nics[k].mac[4] as int + t.nics[k].mac[5] as int == (|n.nodeNics| + 1) % 0x1_0000
  {
    LowOctets(|n.nodeNics| + 1);
    assert AddNode(n, ifaces).nics[..|n.nics|] == n.nics;
    assert AddNode(n, ifaces).nodeNics[..|n.nodeNics|] == n.nodeNics;
  }

  /** The member is listed twice, or already on a cable. */
  ghost predicate Unfit(n: Lan, members: seq<nat>, k: nat)
    requires k < |members| && Known(n, members)
  {
    n.nics[members[k]].seg.Some? || Repeated(members, k)
  }

  ghost predicate Repeated(members: seq<nat>, k: nat)
    requires k < |members|
  {
    exists j :: 0 <= j < k && members[j] == members[k]
  }

  lemma {:induction false} FirstUnfit(n: Lan, members: seq<nat>, from: nat, k: nat)
    requires Known(n, members) && from <= k < |members| && Unfit(n, members, k)
    requires forall j :: from <= j < k ==> !Unfit(n, members, j)
    ensures Problem(n, members, from) == Some(if Repeated(members, k) then Twice(members[k]) else Cabled(members[k]))
    decreases k - from
  {
    RepeatedMeans(members, from);
    if from < k {
      assert !Unfit(n, members, from);
      FirstUnfit(n, members, from + 1, k);
    }
  }

  lemma RepeatedMeans(members: seq<nat>, k: nat)
    requires k < |members|
    ensures members[k] in members[..k] <==> Repeated(members, k)
  {
    if j :| 0 <= j < k && members[j] == members[k] { assert members[..k][j] == members[k]; }
  }

  /** Why a segment is not made: fewer than two members, or the first one that is unfit. */
  lemma CableRefused(n: Lan, members: seq<nat>, k: nat)
    requires Known(n, members)
    ensures |members| < 2 ==> CableProblem(n, members) == Some(TooFew)
    ensures |members| >= 2 && k < |members| && Unfit(n, members, k) && (forall j :: 0 <= j < k ==> !Unfit(n, members, j))
        ==> CableProblem(n, members) == Some(if Repeated(members, k) then Twice(members[k]) else Cabled(members[k]))
  {
    if |members| >= 2 && k < |members| && Unfit(n, members, k) && forall j :: 0 <= j < k ==> !Unfit(n, members, j) {
      FirstUnfit(n, members, 0, k);
    }
  }

  /** A new segment is live and has the given members and faults, nothing counted; a problem leaves everything. */
  lemma NewSegment(n: Lan, members: seq<nat>, faults: Faults)
    requires Known(n, members)
    ensures var t := AddSegment(n, members, faults);
      if |members| >= 2 && Distinct(members) && forall j :: 0 <= j < |members| ==> n.nics[members[j]].seg.None?
      then |t.segs| == |n.segs| + 1 && t.segs[..|n.segs|] == n.segs
           && t.segs[|n.segs|] == Segment(members, true, faults, 0, 0, 0)
           && |t.nics| == |n.nics|
           && forall m :: 0 <= m < |n.nics| ==> t.nics[m].seg == if m in members then Some(|n.segs|) else n.nics[m].seg
      else t == n
  {
    CableProblemMeaning(n, members);
    assert AddSegment(n, members, faults).segs[..|n.segs|] == n.segs;
  }

  /** A face that is set down has an empty queue, neither sends nor hears; set up again it goes on as before. */
  lemma FaceDown(n: Lan, nic: nat, up: bool, m: nat)
    requires nic < |n.nics| && m < |n.nics|
    ensures var t := SetAdmin(n, nic, up);
      && |t.nics| == |n.nics| && (m != nic ==> t.nics[m] == n.nics[m]) && t.nics[nic].adminUp == up
      && (!up ==> t.nics[nic].rxq == [] && !Carrier(t, nic) && forall c :: !Hears(t, c, nic))
      && (up ==> t.nics[nic].rxq == n.nics[nic].rxq)
      && t.nics[nic].mac == n.nics[nic].mac && t.nics[nic].seg == n.nics[nic].seg
      && t.nics[nic].attached == n.nics[nic].attached && t.nics[nic].promisc == n.nics[nic].promisc
  {
  }

  // ------------------------------------------------------------ taking frames

  /** The face whose turn comes after `j` others has nothing waiting. */
  ghost predicate Idle(n: Lan, list: seq<nat>, rr: nat, j: nat)
    requires j < |list| && Known(n, list)
  {
    n.nics[list[(rr + j) % |list|]].rxq == []
  }

  lemma {:induction false} FirstTurnIsFirst(n: Lan, list: seq<nat>, rr: nat, k: nat)
    requires k <= |list| && Known(n, list)
    ensures var r := FirstTurn(n, list, rr, k);
      && (r.None? ==> forall j :: k <= j < |list| ==> Idle(n, list, rr, j))
      && (r.Some? ==> k <= r.value < |list| && forall j :: k <= j < r.value ==> Idle(n, list, rr, j))
    decreases |list| - k
  {
    if k < |list| && Idle(n, list, rr, k) { FirstTurnIsFirst(n, list, rr, k + 1); }
  }

  /** It is the turn of face `i`, after idle ones only. */
  ghost predicate Turn(n: Lan, list: seq<nat>, rr: nat, j: nat, i: nat)
    requires j < |list| && Known(n, list)
  {
    (rr + j) % |list| == i && forall x :: 0 <= x < j ==> Idle(n, list, rr, x)
  }

  /** Beginning with the given turn and going round, the first face with a frame gives its oldest one, and the turn is
      next with the face behind it; nothing else changes. */
  lemma OldestTaken(n: Lan, node: nat, rr: nat)
    requires ListsOk(n) && node < |n.nodeNics|
    ensures var list, r := n.nodeNics[node], RxAny(n, node, rr);
      match r.got
      case None => r.n == n && r.rr == rr && forall j :: 0 <= j < |list| ==> Idle(n, list, rr, j)
      case Some((i, frame)) =>
        && i < |list| && n.nics[list[i]].rxq != [] && frame == n.nics[list[i]].rxq[0] && r.rr == (i + 1) % |list|
        && (exists j :: 0 <= j < |list| && Turn(n, list, rr, j, i))
        && r.n == n.(nics := n.nics[list[i] := n.nics[list[i]].(rxq := n.nics[list[i]].rxq[1..])])
  {
    var list := n.nodeNics[node];
    FirstTurnIsFirst(n, list, rr, 0);
    var r := FirstTurn(n, list, rr, 0);
    if r.Some? { assert Turn(n, list, rr, r.value, (rr + r.value) % |list|); }
  }
}
