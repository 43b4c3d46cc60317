/** Cable segments (`Network`): NIC filters, bounded receive queues, fault injection and delayed copies. */
module Net {
  import opened Prelude
  import Arith
  import Tamper

  const QUEUE_CAP := 256

  /** What `transmit` lets onto a segment. */
  type Frame = f: seq<byte> | 14 <= |f| <= 1518 witness seq(14, i => 0)

  datatype Nic = Nic(node: nat, iface: nat, mac: seq<byte>, adminUp: bool, promisc: bool, rxq: seq<Frame>,
                     seg: Option<nat>, attached: bool)

  datatype Faults = Faults(dropPct: real, delayMs: int, dupPct: real, reorderPct: real, reorderMs: int,
                           tamperPct: real, tamperPort: nat)

  /** `copies` counts the copies put on the wire, at once or delayed; it is for the specification only. */
  datatype Segment = Segment(members: seq<nat>, up: bool, faults: Faults, frames: nat, dropped: nat, copies: nat)

  /** A frame on its way from NIC `src` to the other members of segment `seg`. */
  datatype Copy = Copy(seg: nat, src: nat, frame: Frame)

  /** What the heap of delayed copies orders. */
  datatype Entry = Entry(due: int, id: nat, seg: nat)

  datatype Lan = Lan(nics: seq<Nic>, nodeNics: seq<seq<nat>>, segs: seq<Segment>, heap: set<Entry>,
                     delayed: map<nat, Copy>, lastId: nat, irq: seq<bool>)

  const NOTHING := Lan([], [], [], {}, map[], 0, [])

  // ------------------------------------------------------------ receiving

  predicate Accepts(n: Nic, f: Frame) {
    n.promisc || f[0] % 2 == 1 || f[..6] == n.mac
  }

  /** NIC `m` gets the copy: it is another member of a live segment, up, plugged in and accepting. */
  predicate Hears(n: Lan, c: Copy, m: nat) {
    && m < |n.nics| && c.seg < |n.segs| && n.segs[c.seg].up
    && m in n.segs[c.seg].members && m != c.src
    && n.nics[m].attached && n.nics[m].adminUp && Accepts(n.nics[m], c.frame)
  }

  /** The newest 256. */
  function Newest<T>(q: seq<T>): (r: seq<T>)
    ensures |r| <= QUEUE_CAP
  {
    if |q| <= QUEUE_CAP then q else q[|q| - QUEUE_CAP..]
  }

  /** Cutting in between changes nothing. */
  lemma NewestTwice<T>(q: seq<T>, a: seq<T>, b: seq<T>)
    ensures Newest(Newest(q + a) + b) == Newest(q + (a + b))
  {
    Joined(q, a, b);
    NewestAppend(q + a, b);
  }

  lemma Joined<T>(a: seq<T>, b: seq<T>, c: seq<T>)
    ensures a + b + c == a + (b + c)
  {
  }

  lemma NewestAppend<T>(x: seq<T>, b: seq<T>)
    ensures Newest(Newest(x) + b) == Newest(x + b)
  {
    if |x| > QUEUE_CAP {
      var k := |x| - QUEUE_CAP;
      DropAppend(x, b, k);
      NewestOfDrop(x + b, k);
    }
  }

  lemma NewestOfDrop<T>(w: seq<T>, k: nat)
    requires k + QUEUE_CAP <= |w|
    ensures Newest(w[k..]) == Newest(w)
  {
    DropTwice(w, k, |w| - k - QUEUE_CAP);
  }

  lemma DropAppend<T>(x: seq<T>, b: seq<T>, k: nat)
    requires k <= |x|
    ensures x[k..] + b == (x + b)[k..]
  {
  }

  lemma DropTwice<T>(x: seq<T>, k: nat, j: nat)
    requires k + j <= |x|
    ensures x[k..][j..] == x[k + j..]
  {
  }

  function Enqueue(n: Nic, f: Frame): Nic {
    n.(rxq := Newest(n.rxq + [f]))
  }

  ghost predicate HeardOn(n: Lan, c: Copy, node: nat) {
    exists m: nat :: Hears(n, c, m) && n.nics[m].node == node
  }

  ghost function DeliveredNics(n: Lan, c: Copy): (r: seq<Nic>)
    ensures |r| == |n.nics|
  {
    seq(|n.nics|, m requires 0 <= m < |n.nics| => if Hears(n, c, m) then Enqueue(n.nics[m], c.frame) else n.nics[m])
  }

  ghost function DeliveredIrq(n: Lan, c: Copy): (r: seq<bool>)
    ensures |r| == |n.irq|
  {
    seq(|n.irq|, k requires 0 <= k < |n.irq| => n.irq[k] || HeardOn(n, c, k))
  }

  /** `deliver`: everyone who hears the copy queues it, and their computers are interrupted. */
  ghost function Deliver(n: Lan, c: Copy): Lan {
    n.(nics := DeliveredNics(n, c), irq := DeliveredIrq(n, c))
  }

  // ------------------------------------------------------------ transmitting

  /** `Rng::chance`, with the drawn number reduced to a coin. */
  predicate Chance(pct: real, coin: bool) { pct > 0.0 && (pct >= 100.0 || coin) }

  datatype Luck = Luck(drop: bool, tamper: bool, pick: nat, dup: bool, late0: bool, late1: bool)

  predicate Clean(f: Faults) {
    f.dropPct <= 0.0 && f.delayMs <= 0 && f.dupPct <= 0.0 && f.reorderPct <= 0.0 && f.tamperPct <= 0.0
  }

  function Max(a: int, b: int): int { if a < b then b else a }

  function Delay(f: Faults, late: bool): nat {
    Max(f.delayMs, 0) + if Chance(f.reorderPct, late) then Max(f.reorderMs, 1) else 0
  }

  function Delays(f: Faults, luck: Luck): seq<nat> {
    if Chance(f.dupPct, luck.dup) then [Delay(f, luck.late0), Delay(f, luck.late1)] else [Delay(f, luck.late0)]
  }

  ghost function Outgoing(f: Faults, frame: Frame, luck: Luck): Frame {
    if Chance(f.tamperPct, luck.tamper) then Tamper.After(frame, f.tamperPort, luck.pick) else frame
  }

  function SegOf(n: Lan, nic: nat): nat
    requires nic < |n.nics| && n.nics[nic].seg.Some?
  {
    n.nics[nic].seg.value
  }

  /** The sender is up and its cable leads to a live segment (`carrier`). */
  predicate Carrier(n: Lan, nic: nat) {
    && nic < |n.nics| && n.nics[nic].adminUp && n.nics[nic].attached && n.nics[nic].seg.Some?
    && SegOf(n, nic) < |n.segs| && n.segs[SegOf(n, nic)].up
  }

  function CountFrame(n: Lan, s: nat): Lan
    requires s < |n.segs|
  {
    n.(segs := n.segs[s := n.segs[s].(frames := n.segs[s].frames + 1)])
  }

  function CountDrop(n: Lan, s: nat): Lan
    requires s < |n.segs|
  {
    n.(segs := n.segs[s := n.segs[s].(dropped := n.segs[s].dropped + 1)])
  }

  function CountCopies(n: Lan, s: nat, k: nat): Lan
    requires s < |n.segs|
  {
    n.(segs := n.segs[s := n.segs[s].(copies := n.segs[s].copies + k)])
  }

  function Hold(n: Lan, due: int, c: Copy): Lan {
    var id := n.lastId + 1;
    n.(lastId := id, heap := n.heap + {Entry(due, id, c.seg)}, delayed := n.delayed[id := c])
  }

  ghost function Launch(n: Lan, now: int, c: Copy, ds: seq<nat>): Lan
    decreases |ds|
  {
    if ds == [] then n
    else if ds[0] == 0 then Launch(Deliver(n, c), now, c, ds[1..])
    else Launch(Hold(n, now + ds[0], c), now, c, ds[1..])
  }

  /** `transmit` of a frame of legal size; the fault-free short cut is not told apart (see `CleanIsFaultless`). */
  ghost function Transmit(n: Lan, nic: nat, frame: Frame, now: int, luck: Luck): Lan {
    if !Carrier(n, nic) then n
    else
      var s := SegOf(n, nic);
      var f := n.segs[s].faults;
      if Chance(f.dropPct, luck.drop) then CountDrop(CountFrame(n, s), s)
      else
        var ds := Delays(f, luck);
        Launch(CountCopies(CountFrame(n, s), s, |ds|), now, Copy(s, nic, Outgoing(f, frame, luck)), ds)
  }

  /** On a fault-free segment exactly one unchanged copy is delivered at once, whatever the draws. */
  lemma CleanIsFaultless(n: Lan, nic: nat, frame: Frame, now: int, luck: Luck)
    requires Carrier(n, nic) && Clean(n.segs[SegOf(n, nic)].faults)
    ensures var s := SegOf(n, nic);
      Transmit(n, nic, frame, now, luck) == Deliver(CountCopies(CountFrame(n, s), s, 1), Copy(s, nic, frame))
  {
    var s := SegOf(n, nic);
    var f := n.segs[s].faults;
    var m := CountCopies(CountFrame(n, s), s, 1);
    assert Delays(f, luck) == [0];
    assert Launch(m, now, Copy(s, nic, frame), [0]) == Launch(Deliver(m, Copy(s, nic, frame)), now, Copy(s, nic, frame), []);
  }

  // ------------------------------------------------------------ delayed copies

  /** The order in which the heap gives its entries out. */
  predicate Before(a: Entry, b: Entry) {
    a.due < b.due || (a.due == b.due && (a.id < b.id || (a.id == b.id && a.seg < b.seg)))
  }

  predicate IsLeast(e: Entry, es: set<Entry>) {
    e in es && forall x :: x in es ==> x == e || Before(e, x)
  }

  lemma {:induction false} LeastExists(es: set<Entry>) returns (e: Entry)
    requires es != {}
    ensures IsLeast(e, es)
    decreases |es|
  {
    var x :| x in es;
    var rest := es - {x};
    assert forall y :: y in es ==> y == x || y in rest;
    if rest == {} {
      e := x;
    } else {
      e := LeastExists(rest);
      if Before(x, e) { e := x; }
    }
  }

  ghost function Least(es: set<Entry>): (e: Entry)
    requires es != {}
    ensures IsLeast(e, es)
  {
    assert exists x :: IsLeast(x, es) by { var x := LeastExists(es); }
    var x :| IsLeast(x, es);
    x
  }

  function Due(heap: set<Entry>, now: int): set<Entry> {
    set e | e in heap && e.due <= now
  }

  /** The set as a list, least first. */
  ghost function Ordered(es: set<Entry>): seq<Entry>
    decreases |es|
  {
    if es == {} then [] else [Least(es)] + Ordered(es - {Least(es)})
  }

  ghost predicate InOrder(l: seq<Entry>) {
    forall i, j :: 0 <= i < j < |l| ==> Before(l[i], l[j])
  }

  /** A list is `Ordered(es)` exactly when it is in order and holds each element of `es`, once. */
  lemma {:induction false} OrderedIsTheSortedList(es: set<Entry>, l: seq<Entry>)
    ensures l == Ordered(es) <==> InOrder(l) && (forall e :: e in l <==> e in es)
    decreases |es|
  {
    if es == {} {
      if |l| > 0 { assert l[0] in l; }
    } else {
      var e := Least(es);
      var rest := es - {e};
      assert forall x :: x in es <==> x == e || x in rest;
      if l == Ordered(es) {
        var t := Ordered(rest);
        assert l[1..] == t;
        OrderedIsTheSortedList(rest, t);
        forall j | 0 < j < |l| ensures Before(l[0], l[j]) { assert l[j] == t[j - 1] && t[j - 1] in t; }
        forall i, j | 0 < i < j < |l| ensures Before(l[i], l[j]) { assert l[i] == t[i - 1] && l[j] == t[j - 1]; }
      }
      if InOrder(l) && (forall x :: x in l <==> x in es) {
        SortedHead(es, l);
        OrderedIsTheSortedList(rest, l[1..]);
        assert l == [l[0]] + l[1..];
      }
    }
  }

  lemma SortedHead(es: set<Entry>, l: seq<Entry>)
    requires es != {} && InOrder(l) && (forall x :: x in l <==> x in es)
    ensures |l| > 0 && l[0] == Least(es) && InOrder(l[1..])
    ensures forall x :: x in l[1..] <==> x in es - {Least(es)}
  {
    var e := Least(es);
    assert e in l;
    var k :| 0 <= k < |l| && l[k] == e;
    assert l[0] in es;
    assert forall i :: 0 < i < |l| ==> Before(l[0], l[i]);
    var t := l[1..];
    forall x | x in t ensures x in es - {e} {
      var j :| 0 <= j < |t| && t[j] == x;
      assert x == l[j + 1] && x in l && Before(l[0], l[j + 1]);
    }
    forall x | x in es - {e} ensures x in t {
      assert x in l;
      var j :| 0 <= j < |l| && l[j] == x;
      assert x == t[j - 1];
    }
  }

  /** An entry and its copy are gone. */
  function Remove(n: Lan, e: Entry): Lan {
    n.(heap := n.heap - {e}, delayed := n.delayed - {e.id})
  }

  /** One copy comes off the heap; if the sender was unplugged meanwhile it is lost. */
  ghost function MatureOne(n: Lan, e: Entry): Lan {
    if Arrives(n, e) then Deliver(Remove(n, e), n.delayed[e.id]) else Remove(n, e)
  }

  /** The sender is still plugged in. */
  predicate Arrives(n: Lan, e: Entry) {
    e.id in n.delayed && n.delayed[e.id].src < |n.nics| && n.nics[n.delayed[e.id].src].attached
  }

  /** Every entry of the list has a copy, and no two the same. */
  ghost predicate Held(n: Lan, es: seq<Entry>) {
    && (forall i :: 0 <= i < |es| ==> es[i].id in n.delayed)
    && (forall i, j :: 0 <= i < j < |es| ==> es[i].id != es[j].id)
  }

  ghost function Mature(n: Lan, es: seq<Entry>): Lan
    decreases |es|
  {
    if es == [] then n else Mature(MatureOne(n, es[0]), es[1..])
  }

  // ------------------------------------------------------------ the invariant

  predicate NodesOk(nics: seq<Nic>, nodeNics: seq<seq<nat>>) {
    && (forall k, i :: 0 <= k < |nodeNics| && 0 <= i < |nodeNics[k]| ==>
                         nodeNics[k][i] < |nics| && nics[nodeNics[k][i]].node == k && nics[nodeNics[k][i]].iface == i)
    && (forall m :: 0 <= m < |nics| ==>
                      nics[m].node < |nodeNics| && nics[m].iface < |nodeNics[nics[m].node]|
                      && nodeNics[nics[m].node][nics[m].iface] == m)
  }

  predicate Distinct(l: seq<nat>) { forall i, j :: 0 <= i < j < |l| ==> l[i] != l[j] }

  /** A NIC is a member of a segment exactly when its cable says so. */
  predicate CablesOk(nics: seq<Nic>, segs: seq<Segment>) {
    && (forall s :: 0 <= s < |segs| ==> |segs[s].members| >= 2 && Distinct(segs[s].members))
    && (forall s, m :: 0 <= s < |segs| && m in segs[s].members ==> m < |nics|)
    && (forall s, m :: 0 <= s < |segs| && 0 <= m < |nics| ==> (m in segs[s].members <==> nics[m].seg == Some(s)))
    && (forall m :: 0 <= m < |nics| && nics[m].seg.Some? ==> nics[m].seg.value < |segs|)
  }

  predicate QueuesOk(nics: seq<Nic>) {
    forall m :: 0 <= m < |nics| ==> |nics[m].rxq| <= QUEUE_CAP
  }

  /** A counted transmission was dropped, or made one copy or two. */
  predicate SegCounts(s: Segment) {
    && s.dropped <= s.frames
    && s.frames - s.dropped <= s.copies <= 2 * (s.frames - s.dropped)
  }

  predicate CountsOk(segs: seq<Segment>) {
    forall s :: 0 <= s < |segs| ==> SegCounts(segs[s])
  }

  predicate OnSegment(nics: seq<Nic>, segs: nat, c: Copy) {
    c.src < |nics| && nics[c.src].seg == Some(c.seg) && c.seg < segs
  }

  /** The heap and the map hold the same copies: one entry and one copy per identifier. */
  predicate FlightOk(n: Lan) {
    && (forall e :: e in n.heap ==> e.id in n.delayed && n.delayed[e.id].seg == e.seg)
    && (forall e, e' :: e in n.heap && e' in n.heap && e.id == e'.id ==> e == e')
    && (forall id :: id in n.delayed ==> 0 < id <= n.lastId && OnSegment(n.nics, |n.segs|, n.delayed[id]))
    && (forall id :: id in n.delayed ==> HasId(n.heap, id))
  }

  predicate HasId(es: set<Entry>, id: nat) {
    exists e :: e in es && e.id == id
  }

  predicate LanOk(n: Lan) {
    && NodesOk(n.nics, n.nodeNics) && |n.irq| == |n.nodeNics|
    && CablesOk(n.nics, n.segs) && QueuesOk(n.nics) && CountsOk(n.segs) && FlightOk(n)
  }

  // ------------------------------------------------------------ what each change keeps

  predicate SameSlots(a: seq<Nic>, b: seq<Nic>) {
    |a| == |b| && forall m :: 0 <= m < |a| ==> a[m].node == b[m].node && a[m].iface == b[m].iface && a[m].seg == b[m].seg
  }

  predicate SameMembers(a: seq<Segment>, b: seq<Segment>) {
    |a| == |b| && forall s :: 0 <= s < |a| ==> a[s].members == b[s].members
  }

  lemma SlotsKeep(a: Lan, b: Lan)
    requires LanOk(a) && SameSlots(a.nics, b.nics) && SameMembers(a.segs, b.segs) && a.nodeNics == b.nodeNics
    requires a.heap == b.heap && a.delayed == b.delayed && a.lastId == b.lastId
    ensures NodesOk(b.nics, b.nodeNics) && CablesOk(b.nics, b.segs) && FlightOk(b)
  {
    SlotsKeepNodes(a, b);
    SlotsKeepCables(a, b);
    SlotsKeepFlight(a, b);
  }

  lemma SlotsKeepNodes(a: Lan, b: Lan)
    requires NodesOk(a.nics, a.nodeNics) && SameSlots(a.nics, b.nics) && a.nodeNics == b.nodeNics
    ensures NodesOk(b.nics, b.nodeNics)
  {
  }

  lemma SlotsKeepCables(a: Lan, b: Lan)
    requires CablesOk(a.nics, a.segs) && SameSlots(a.nics, b.nics) && SameMembers(a.segs, b.segs)
    ensures CablesOk(b.nics, b.segs)
  {
  }

  lemma SlotsKeepFlight(a: Lan, b: Lan)
    requires FlightOk(a) && SameSlots(a.nics, b.nics) && |a.segs| == |b.segs|
    requires a.heap == b.heap && a.delayed == b.delayed && a.lastId == b.lastId
    ensures FlightOk(b)
  {
  }

  /** More NICs, more segments and more cables do no harm to the copies under way. */
  lemma GrowthKeepsFlight(a: Lan, b: Lan)
    requires FlightOk(a) && a.heap == b.heap && a.delayed == b.delayed && a.lastId == b.lastId
    requires |a.nics| <= |b.nics| && |a.segs| <= |b.segs|
    requires forall m :: 0 <= m < |a.nics| && a.nics[m].seg.Some? ==> b.nics[m].seg == a.nics[m].seg
    ensures FlightOk(b)
  {
  }

  /** Everything that decides who hears a copy. */
  predicate SameWiring(a: Lan, b: Lan) {
    && |a.nics| == |b.nics| && |a.segs| == |b.segs|
    && (forall m :: 0 <= m < |a.nics| ==> a.nics[m].(rxq := []) == b.nics[m].(rxq := []))
    && (forall s :: 0 <= s < |a.segs| ==> a.segs[s].members == b.segs[s].members && a.segs[s].up == b.segs[s].up)
  }

  /** Apart from the counts, which the caller restores. */
  predicate LanOkButCounts(n: Lan) {
    NodesOk(n.nics, n.nodeNics) && |n.irq| == |n.nodeNics| && CablesOk(n.nics, n.segs) && QueuesOk(n.nics) && FlightOk(n)
  }

  lemma DeliverKeeps(n: Lan, c: Copy)
    requires LanOkButCounts(n)
    ensures LanOkButCounts(Deliver(n, c))
  {
    var d := Deliver(n, c);
    SlotsKeepNodes(n, d);
    SlotsKeepCables(n, d);
    SlotsKeepFlight(n, d);
  }

  lemma CountKeeps(n: Lan, segs: seq<Segment>)
    requires LanOk(n) && SameMembers(n.segs, segs) && CountsOk(segs)
    ensures LanOk(n.(segs := segs))
  {
    SlotsKeep(n, n.(segs := segs));
  }

  lemma HoldKeepsFlight(n: Lan, due: int, c: Copy)
    requires FlightOk(n) && OnSegment(n.nics, |n.segs|, c)
    ensures FlightOk(Hold(n, due, c))
  {
    var h := Hold(n, due, c);
    var e := Entry(due, n.lastId + 1, c.seg);
    forall x | x in h.heap ensures x.id in h.delayed && h.delayed[x.id].seg == x.seg && (x.id == e.id ==> x == e) {
      if x != e { assert x in n.heap && x.id in n.delayed; }
    }
    forall id | id in h.delayed ensures HasId(h.heap, id) {
      if id == e.id { assert e in h.heap; } else { HoldKeepsId(n, due, c, id); }
    }
  }

  lemma HoldKeepsId(n: Lan, due: int, c: Copy, id: nat)
    requires HasId(n.heap, id)
    ensures HasId(Hold(n, due, c).heap, id)
  {
    var x :| x in n.heap && x.id == id;
    assert x in Hold(n, due, c).heap;
  }

  lemma DeliverKeepsFlight(n: Lan, c: Copy)
    requires FlightOk(n)
    ensures FlightOk(Deliver(n, c))
  {
    SlotsKeepFlight(n, Deliver(n, c));
  }

  lemma {:induction false} LaunchKeepsFlight(n: Lan, now: int, c: Copy, ds: seq<nat>)
    requires FlightOk(n) && OnSegment(n.nics, |n.segs|, c)
    ensures FlightOk(Launch(n, now, c, ds))
    decreases |ds|
  {
    if ds == [] {
    } else if ds[0] == 0 {
      DeliverKeepsFlight(n, c);
      LaunchKeepsFlight(Deliver(n, c), now, c, ds[1..]);
    } else {
      HoldKeepsFlight(n, now + ds[0], c);
      LaunchKeepsFlight(Hold(n, now + ds[0], c), now, c, ds[1..]);
    }
  }

  lemma {:induction false} LaunchWiring(n: Lan, now: int, c: Copy, ds: seq<nat>)
    ensures var l := Launch(n, now, c, ds);
      && SameWiring(n, l) && l.segs == n.segs && l.nodeNics == n.nodeNics && |l.irq| == |n.irq|
      && (QueuesOk(n.nics) ==> QueuesOk(l.nics))
    decreases |ds|
  {
    if ds == [] {
    } else if ds[0] == 0 {
      LaunchWiring(Deliver(n, c), now, c, ds[1..]);
    } else {
      LaunchWiring(Hold(n, now + ds[0], c), now, c, ds[1..]);
    }
  }

  lemma LaunchKeeps(n: Lan, now: int, c: Copy, ds: seq<nat>)
    requires LanOkButCounts(n) && OnSegment(n.nics, |n.segs|, c)
    ensures LanOkButCounts(Launch(n, now, c, ds))
  {
    LaunchKeepsFlight(n, now, c, ds);
    LaunchWiring(n, now, c, ds);
    SlotsKeepNodes(n, Launch(n, now, c, ds));
    SlotsKeepCables(n, Launch(n, now, c, ds));
  }

  /** A transmission keeps the invariant, and counts: dropped, or one copy or two. */
  lemma TransmitKeeps(n: Lan, nic: nat, frame: Frame, now: int, luck: Luck)
    requires LanOk(n) && nic < |n.nics|
    ensures LanOk(Transmit(n, nic, frame, now, luck)) && SameWiring(n, Transmit(n, nic, frame, now, luck))
  {
    if Carrier(n, nic) {
      var s := SegOf(n, nic);
      var f := n.segs[s].faults;
      var t := Transmit(n, nic, frame, now, luck);
      if Chance(f.dropPct, luck.drop) {
        SlotsKeep(n, t);
      } else {
        var ds := Delays(f, luck);
        var k := CountCopies(CountFrame(n, s), s, |ds|);
        SlotsKeep(n, k);
        LaunchKeeps(k, now, Copy(s, nic, Outgoing(f, frame, luck)), ds);
        LaunchWiring(k, now, Copy(s, nic, Outgoing(f, frame, luck)), ds);
      }
      assert SegCounts(t.segs[s]);
    }
  }

  lemma MatureOneKeeps(n: Lan, e: Entry)
    requires LanOk(n) && e in n.heap
    ensures LanOk(MatureOne(n, e))
  {
    RemoveKeepsFlight(n, e);
    if Arrives(n, e) { DeliverKeeps(Remove(n, e), n.delayed[e.id]); }
  }

  lemma MatureOneTakes(n: Lan, e: Entry)
    ensures var m := MatureOne(n, e);
      && SameWiring(n, m) && m.segs == n.segs && m.lastId == n.lastId
      && m.heap == n.heap - {e} && m.delayed == n.delayed - {e.id}
  {
  }

  lemma RemoveKeepsFlight(n: Lan, e: Entry)
    requires FlightOk(n) && e in n.heap
    ensures FlightOk(Remove(n, e))
  {
    var k := Remove(n, e);
    forall id | id in k.delayed ensures HasId(k.heap, id) {
      assert HasId(n.heap, id);
      var x :| x in n.heap && x.id == id;
      assert x in k.heap;
    }
  }

  lemma HeldFromHeap(n: Lan, es: seq<Entry>)
    requires FlightOk(n) && InOrder(es) && forall e :: e in es ==> e in n.heap
    ensures Held(n, es)
  {
    forall i | 0 <= i < |es| ensures es[i].id in n.delayed { assert es[i] in es; }
    forall i, j | 0 <= i < j < |es| ensures es[i].id != es[j].id {
      assert Before(es[i], es[j]) && es[i] in es && es[j] in es;
    }
  }

  lemma WiringJoins(a: Lan, b: Lan, c: Lan)
    requires SameWiring(a, b) && SameWiring(b, c)
    ensures SameWiring(a, c)
  {
  }

  /** Once the first is handled the rest can be. */
  lemma MatureFirst(n: Lan, es: seq<Entry>)
    requires LanOk(n) && InOrder(es) && (forall e :: e in es ==> e in n.heap) && Held(n, es) && es != []
    ensures var m, t := MatureOne(n, es[0]), es[1..];
      && LanOk(m) && SameWiring(n, m) && m.heap == n.heap - {es[0]} && m.delayed == n.delayed - {es[0].id}
      && m.lastId == n.lastId && InOrder(t) && (forall e :: e in t ==> e in m.heap) && Held(m, t)
  {
    assert es[0] in es;
    MatureOneKeeps(n, es[0]);
    MatureOneTakes(n, es[0]);
    var t := es[1..];
    forall e | e in t ensures e in n.heap - {es[0]} {
      var j :| 0 <= j < |t| && t[j] == e;
      assert Before(es[0], es[j + 1]) && e == es[j + 1] && e in es;
    }
    HeldFromHeap(MatureOne(n, es[0]), t);
  }

  lemma {:induction false} MatureKeeps(n: Lan, es: seq<Entry>)
    requires LanOk(n) && InOrder(es) && (forall e :: e in es ==> e in n.heap) && Held(n, es)
    ensures LanOk(Mature(n, es))
    decreases |es|
  {
    if es != [] {
      MatureFirst(n, es);
      MatureKeeps(MatureOne(n, es[0]), es[1..]);
    }
  }

  lemma {:induction false} MatureTakes(n: Lan, es: seq<Entry>)
    ensures var m := Mature(n, es);
      && m.lastId == n.lastId
      && (forall e :: e in m.heap <==> e in n.heap && e !in es)
      && (forall id :: id in m.delayed ==> id in n.delayed && m.delayed[id] == n.delayed[id])
    decreases |es|
  {
    if es != [] {
      var t := es[1..];
      assert es == [es[0]] + t;
      MatureTakes(MatureOne(n, es[0]), t);
    }
  }

  lemma {:induction false} MatureWiring(n: Lan, es: seq<Entry>)
    ensures var m := Mature(n, es);
      SameWiring(n, m) && m.segs == n.segs && m.nodeNics == n.nodeNics && |m.irq| == |n.irq|
    decreases |es|
  {
    if es != [] { MatureWiring(MatureOne(n, es[0]), es[1..]); }
  }

  /** `deliver_due`. */
  ghost function DeliverDue(n: Lan, now: int): Lan {
    Mature(n, Ordered(Due(n.heap, now)))
  }

  lemma DueHeld(n: Lan, now: int)
    requires LanOk(n)
    ensures var es := Ordered(Due(n.heap, now));
      InOrder(es) && (forall e :: e in es <==> e in Due(n.heap, now)) && Held(n, es)
  {
    OrderedIsTheSortedList(Due(n.heap, now), Ordered(Due(n.heap, now)));
    HeldFromHeap(n, Ordered(Due(n.heap, now)));
  }

  /** Exactly the copies due leave the heap and the map; the others stay, all later than `now`. */
  lemma DeliverDueTakesTheDue(n: Lan, now: int)
    requires LanOk(n)
    ensures var m := DeliverDue(n, now);
      && LanOk(m) && SameWiring(n, m) && m.lastId == n.lastId
      && m.heap == n.heap - Due(n.heap, now)
      && (forall e :: e in m.heap ==> now < e.due)
      && (forall id :: id in m.delayed ==> id in n.delayed && m.delayed[id] == n.delayed[id])
  {
    DueHeld(n, now);
    MatureKeeps(n, Ordered(Due(n.heap, now)));
    MatureTakes(n, Ordered(Due(n.heap, now)));
    MatureWiring(n, Ordered(Due(n.heap, now)));
  }

  // ------------------------------------------------------------ computers and cables

  /** Six octets: 2, the face, 94, 0 and the number after the computer's, high octet first, all modulo 256. */
  function MacOf(node: nat, iface: nat): seq<byte> {
    [2, iface % 256, 0x5e, 0, (node + 1) / 256 % 256, (node + 1) % 256]
  }

  /** Two faces share an address exactly when they agree modulo what the address has room for. */
  lemma MacsDiffer(node: nat, iface: nat, node': nat, iface': nat)
    ensures MacOf(node, iface) == MacOf(node', iface') <==>
            iface % 256 == iface' % 256 && (node + 1) % 0x1_0000 == (node' + 1) % 0x1_0000
  {
    LowOctets(node + 1);
    LowOctets(node' + 1);
    var x, y := MacOf(node, iface), MacOf(node', iface');
    if x == y { assert x[1] == y[1] && x[4] == y[4] && x[5] == y[5]; }
  }

  lemma LowOctets(a: nat)
    ensures a % 0x1_0000 == a / 256 % 256 * 256 + a % 256
    ensures a % 0x1_0000 / 256 == a / 256 % 256 && a % 0x1_0000 % 256 == a % 256
  {
    var q := a / 256;
    var low := q % 256 * 256 + a % 256;
    assert a == q * 256 + a % 256 && q == q / 256 * 256 + q % 256;
    assert a == 0x1_0000 * (q / 256) + low;
    Arith.DivModIs(a, q / 256, low, 0x1_0000);
    Arith.DivModIs(low, q % 256, a % 256, 256);
  }

  function NewNic(node: nat, iface: nat): Nic {
    Nic(node, iface, MacOf(node, iface), true, false, [], None, true)
  }

  function AddNode(n: Lan, ifaces: nat): Lan {
    var node := |n.nodeNics|;
    n.(nics := n.nics + seq(ifaces, i requires 0 <= i < ifaces => NewNic(node, i)),
       nodeNics := n.nodeNics + [seq(ifaces, i requires 0 <= i < ifaces => |n.nics| + i)],
       irq := n.irq + [false])
  }

  lemma AddNodeKeeps(n: Lan, ifaces: nat)
    requires LanOk(n)
    ensures LanOk(AddNode(n, ifaces))
  {
    var b := AddNode(n, ifaces);
    assert NodesOk(b.nics, b.nodeNics) by {
      forall k, i | 0 <= k < |b.nodeNics| && 0 <= i < |b.nodeNics[k]|
        ensures b.nodeNics[k][i] < |b.nics| && b.nics[b.nodeNics[k][i]].node == k && b.nics[b.nodeNics[k][i]].iface == i
      {
        if k < |n.nodeNics| { assert b.nodeNics[k] == n.nodeNics[k]; }
      }
    }
    GrowthKeepsFlight(n, b);
  }

  datatype CableError = TooFew | Twice(nic: nat) | Cabled(nic: nat)

  predicate Known(n: Lan, list: seq<nat>) {
    forall i :: 0 <= i < |list| ==> list[i] < |n.nics|
  }

  /** The first member from `k` on that cannot be cabled. */
  function Problem(n: Lan, members: seq<nat>, k: nat): (r: Option<CableError>)
    requires k <= |members| && Known(n, members)
    decreases |members| - k
  {
    if k == |members| then None
    else if members[k] in members[..k] then Some(Twice(members[k]))
    else if n.nics[members[k]].seg.Some? then Some(Cabled(members[k]))
    else Problem(n, members, k + 1)
  }

  function CableProblem(n: Lan, members: seq<nat>): Option<CableError>
    requires Known(n, members)
  {
    if |members| < 2 then Some(TooFew) else Problem(n, members, 0)
  }

  lemma {:induction false} ProblemMeaning(n: Lan, members: seq<nat>, k: nat)
    requires k <= |members| && Known(n, members)
    ensures Problem(n, members, k).None? <==>
              (forall i, j :: 0 <= i < j < |members| && k <= j ==> members[i] != members[j])
              && (forall j :: k <= j < |members| ==> n.nics[members[j]].seg.None?)
    decreases |members| - k
  {
    if k < |members| {
      ProblemMeaning(n, members, k + 1);
      if members[k] in members[..k] {
        var i :| 0 <= i < k && members[..k][i] == members[k];
        assert members[i] == members[k];
      } else {
        forall i | 0 <= i < k ensures members[i] != members[k] { assert members[i] == members[..k][i]; }
      }
    }
  }

  /** A segment is made exactly of two or more different uncabled NICs. */
  lemma CableProblemMeaning(n: Lan, members: seq<nat>)
    requires Known(n, members)
    ensures CableProblem(n, members).None? <==>
              |members| >= 2 && Distinct(members) && forall j :: 0 <= j < |members| ==> n.nics[members[j]].seg.None?
  {
    ProblemMeaning(n, members, 0);
  }

  function AddSegment(n: Lan, members: seq<nat>, faults: Faults): Lan
    requires Known(n, members)
  {
    if CableProblem(n, members).Some? then n
    else
      var id := |n.segs|;
      n.(nics := seq(|n.nics|, m requires 0 <= m < |n.nics| =>
                       if m in members then n.nics[m].(seg := Some(id)) else n.nics[m]),
         segs := n.segs + [Segment(members, true, faults, 0, 0, 0)])
  }

  lemma AddSegmentKeeps(n: Lan, members: seq<nat>, faults: Faults)
    requires LanOk(n) && Known(n, members)
    ensures LanOk(AddSegment(n, members, faults))
  {
    CableProblemMeaning(n, members);
    if CableProblem(n, members).None? {
      var b := AddSegment(n, members, faults);
      assert NodesOk(b.nics, b.nodeNics);
      NewCableOk(n, members, faults);
      GrowthKeepsFlight(n, b);
    }
  }

  lemma NewCableOk(n: Lan, members: seq<nat>, faults: Faults)
    requires CablesOk(n.nics, n.segs) && Known(n, members) && CableProblem(n, members).None?
    ensures CablesOk(AddSegment(n, members, faults).nics, AddSegment(n, members, faults).segs)
  {
    CableProblemMeaning(n, members);
    var b := AddSegment(n, members, faults);
    forall m | m in members ensures m < |n.nics| && n.nics[m].seg.None? {
      var i :| 0 <= i < |members| && members[i] == m;
    }
    forall s, m | 0 <= s < |b.segs| && 0 <= m < |b.nics| ensures m in b.segs[s].members <==> b.nics[m].seg == Some(s) {
      if s < |n.segs| { assert m in n.segs[s].members <==> n.nics[m].seg == Some(s); }
    }
  }

  function SetNic(n: Lan, nic: nat, to: Nic): Lan
    requires nic < |n.nics|
  {
    n.(nics := n.nics[nic := to])
  }

  function SetAdmin(n: Lan, nic: nat, up: bool): Lan
    requires nic < |n.nics|
  {
    SetNic(n, nic, n.nics[nic].(adminUp := up, rxq := if up then n.nics[nic].rxq else []))
  }

  function SetPromisc(n: Lan, nic: nat, on: bool): Lan
    requires nic < |n.nics|
  {
    SetNic(n, nic, n.nics[nic].(promisc := on))
  }

  function SetSegmentUp(n: Lan, s: nat, up: bool): Lan
    requires s < |n.segs|
  {
    n.(segs := n.segs[s := n.segs[s].(up := up)])
  }

  /** Pull or plug in the cable at a face: a two-member link as a whole, a hub's member alone. `None`: no cable. */
  function SetCable(n: Lan, nic: nat, up: bool): Option<Lan>
    requires nic < |n.nics| && (n.nics[nic].seg.Some? ==> n.nics[nic].seg.value < |n.segs|)
  {
    if n.nics[nic].seg.None? then None
    else
      var s := n.nics[nic].seg.value;
      if |n.segs[s].members| == 2 then Some(SetSegmentUp(n, s, up))
      else Some(SetNic(n, nic, n.nics[nic].(attached := up)))
  }

  function SetFaults(n: Lan, s: nat, f: Faults): Lan
    requires s < |n.segs|
  {
    n.(segs := n.segs[s := n.segs[s].(faults := f)])
  }

  /** After pulling a cable neither end of a two-member link has carrier; a hub's other members keep theirs. */
  lemma PulledCable(n: Lan, nic: nat, m: nat)
    requires LanOk(n) && nic < |n.nics| && m < |n.nics| && SetCable(n, nic, false).Some?
    ensures var p := SetCable(n, nic, false).value;
      Carrier(p, m) <==> Carrier(n, m) && m != nic && !(n.nics[m].seg == n.nics[nic].seg && |n.segs[n.nics[nic].seg.value].members| == 2)
  {
  }

  // ------------------------------------------------------------ taking frames and interrupts

  /** How far the turn has to go on from `rr`, at least `k`, to reach a face with a frame waiting. */
  function FirstTurn(n: Lan, list: seq<nat>, rr: nat, k: nat): (r: Option<nat>)
    requires k <= |list| && Known(n, list)
    ensures r.Some? ==> r.value < |list| && n.nics[list[(rr + r.value) % |list|]].rxq != []
    decreases |list| - k
  {
    if k == |list| then None
    else if n.nics[list[(rr + k) % |list|]].rxq != [] then Some(k)
    else FirstTurn(n, list, rr, k + 1)
  }

  /** The network after, the next turn, and the face with its frame. */
  datatype Received = Received(n: Lan, rr: nat, got: Option<(nat, Frame)>)

  predicate ListsOk(n: Lan) {
    forall k, i :: 0 <= k < |n.nodeNics| && 0 <= i < |n.nodeNics[k]| ==> n.nodeNics[k][i] < |n.nics|
  }

  /** Take the oldest frame of face `i`; the next turn starts behind it. */
  function TakeFrom(n: Lan, list: seq<nat>, i: nat): Received
    requires Known(n, list) && i < |list| && n.nics[list[i]].rxq != []
  {
    var m := list[i];
    Received(SetNic(n, m, n.nics[m].(rxq := n.nics[m].rxq[1..])), (i + 1) % |list|, Some((i, n.nics[m].rxq[0])))
  }

  function RxAny(n: Lan, node: nat, rr: nat): Received
    requires ListsOk(n)
  {
    if node >= |n.nodeNics| then Received(n, rr, None)
    else
      var list := n.nodeNics[node];
      var k := FirstTurn(n, list, rr, 0);
      if k.None? then Received(n, rr, None) else TakeFrom(n, list, (rr + k.value) % |list|)
  }

  function TakeIrq(n: Lan, node: nat): Lan
    requires node < |n.irq|
  {
    n.(irq := n.irq[node := false])
  }
}
