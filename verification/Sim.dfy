/** The main loop in virtual time (`Sim.pump_virtual`, `next_event`, `run_until`). What the children, the
    kernels and the network do in one round is arbitrary within what their own models allow. */
module Sim {
  import opened Prelude
  import opened Sched

  /** `work`: an interrupt, input, activity of a child or a new request is there for it. */
  datatype Node = Node(faulted: bool, nextDue: int, work: bool)

  /** A delayed frame: when it is due, and its id. */
  datatype Frame = Frame(due: int, id: nat)

  /** A frame handed to its receivers at time `at`. */
  datatype Handed = Handed(frame: Frame, at: int)

  /** A child of computer `home`. `asks`: its kernel has a request of it to answer. `ended`: killed or past its last host
      call, so it only leaves. `freed`: the children that only leave wake it when they close their ends of its pipe. */
  datatype Kid = Kid(home: nat, asks: bool, ended: bool, freed: bool)

  /** `s` is the scheduler with the clock, whose actors are the children `kids`; `cap` the busy rounds allowed within one
      millisecond. `alerts` pairs frames with the computers that they interrupt whatever the children do meanwhile. */
  datatype World = World(s: State, kids: map<ActorId, Kid>, cap: nat, rounds: nat, roundsAt: int, nodes: seq<Node>,
                         frames: set<Frame>, alerts: set<(nat, nat)>, log: seq<Handed>)

  /** One kernel's worker-loop iteration. */
  datatype NodeStep = NodeStep(did: bool, after: Node)

  /** The scheduler and the children at one moment. */
  datatype Crowd = Crowd(s: State, kids: map<ActorId, Kid>)

  /** What happens around one round: the children when the loop has waited for them (`quiet`: they all sleep), each
      kernel's iteration, the frames sent meanwhile, and the children after that. */
  datatype Round = Round(quiet: bool, idle: Crowd, steps: seq<NodeStep>, sent: set<Frame>, alerts: set<(nat, nat)>,
                         after: Crowd)

  // ------------------------------------------------------------ children

  predicate Runs(c: Crowd, a: ActorId) { a in c.s.actors && !c.s.actors[a].blocked }

  /** Some child of computer `h` runs. */
  ghost predicate Lively(c: Crowd, h: nat) {
    exists a :: a in c.kids && c.kids[a].home == h && Runs(c, a)
  }

  /** A child of computer `h` is on its way out. */
  ghost predicate SomeLeaves(c: Crowd, h: nat) {
    exists a :: a in c.kids && c.kids[a].home == h && c.kids[a].ended
  }

  /** A child waits for an answer without a deadline; one that only leaves never sleeps. */
  ghost predicate CrowdOk(c: Crowd, computers: nat) {
    && Inv(c.s) && c.kids.Keys == c.s.actors.Keys
    && forall a :: a in c.kids ==>
         && c.kids[a].home < computers
         && (c.kids[a].ended ==> Runs(c, a) && !c.kids[a].asks)
         && (c.kids[a].asks && !Runs(c, a) ==> c.s.actors[a].deadline.None?)
         && (c.kids[a].freed ==> SomeLeaves(c, c.kids[a].home))
  }

  /** It may make a call before all children sleep: it runs, or is woken by one that leaves. */
  predicate Able(c: Crowd, a: ActorId) {
    a in c.kids && !c.kids[a].ended && (Runs(c, a) || c.kids[a].freed)
  }

  /** Where the children can get to while no kernel works: none is started or killed, and a request stays until it is
      answered. Children only ever wake children of the same computer, so where nobody runs nothing happens; and somebody
      who can call must be there for a new request. `SimThreads.ChildrenMayIsDerived` derives all this from the threads. */
  ghost predicate ChildrenMay(c: Crowd, d: Crowd, computers: nat) {
    && CrowdOk(d, computers) && d.s.now == c.s.now && d.s.nextId == c.s.nextId && d.s.events >= c.s.events
    && d.kids.Keys <= c.kids.Keys
    && (forall a :: a in d.kids ==> d.kids[a].home == c.kids[a].home && (c.kids[a].ended ==> d.kids[a].ended))
    && (forall a :: a in c.kids && c.kids[a].asks ==> a in d.kids && d.kids[a].asks)
    && (forall a :: a in d.kids && d.kids[a].asks && !c.kids[a].asks ==> CallerAt(c, c.kids[a].home))
    && (forall a :: a in c.kids && !Lively(c, c.kids[a].home) ==> Stays(c, d, a))
  }

  ghost predicate CallerAt(c: Crowd, h: nat) {
    exists b :: b in c.kids && c.kids[b].home == h && Able(c, b)
  }

  predicate Stays(c: Crowd, d: Crowd, a: ActorId)
    requires a in c.kids
  {
    a in d.kids && d.kids[a] == c.kids[a] && a in c.s.actors && a in d.s.actors && d.s.actors[a] == c.s.actors[a]
  }

  predicate Dead(nodes: seq<Node>, h: nat) { h < |nodes| && nodes[h].faulted }

  /** The requests that dead kernels refuse. */
  function Refused(c: Crowd, nodes: seq<Node>): set<ActorId> {
    set a | a in c.kids && c.kids[a].asks && Dead(nodes, c.kids[a].home)
  }

  /** Dead kernels have answered all their children's requests with an error. */
  function Answered(c: Crowd, nodes: seq<Node>): Crowd {
    var ids := Refused(c, nodes);
    Crowd(Release(c.s, set a | a in ids && a in c.s.actors && c.s.actors[a].blocked),
          map a | a in c.kids :: if a in ids then c.kids[a].(asks := false) else c.kids[a])
  }

  // ------------------------------------------------------------ what one round can be

  predicate Did(steps: seq<NodeStep>) {
    exists i :: 0 <= i < |steps| && steps[i].did
  }

  predicate AnyFaulted(nodes: seq<Node>) {
    exists i :: 0 <= i < |nodes| && nodes[i].faulted
  }

  /** What `Kernel.Step` of the kernel loop guarantees. */
  predicate NodeMay(now: int, n: Node, st: NodeStep) {
    && (n.faulted ==> !st.did)
    && (!n.faulted && (n.work || n.nextDue <= now) ==> st.did)
    && (st.did ==> st.after.nextDue >= now)
    && (!st.did ==> st.after.(work := n.work) == n)
  }

  /** A frame that is due interrupts computer `i`. */
  ghost predicate Interrupted(w: World, i: nat) {
    exists f :: f in DueFrames(w.frames, w.s.now) && (f.id, i) in w.alerts
  }

  ghost predicate Possible(w: World, r: Round) {
    && ChildrenMay(Crowd(w.s, w.kids), r.idle, |w.nodes|) && (r.quiet ==> r.idle.s.busy == 0)
    && CrowdOk(r.after, |w.nodes|) && r.after.s.now == w.s.now
    && |r.steps| == |w.nodes|
    && (forall i :: 0 <= i < |w.nodes| ==> NodeMay(w.s.now, w.nodes[i], r.steps[i]))
    && (forall i :: 0 <= i < |w.nodes| && !w.nodes[i].faulted && Interrupted(w, i) ==> r.steps[i].did)
    && (forall f :: f in r.sent ==> f.due > w.s.now)
       // A new request is work for its kernel, and so is a child that leaves.
    && (forall a :: a in r.idle.kids && r.idle.kids[a].asks && !w.kids[a].asks && !Dead(w.nodes, w.kids[a].home) ==>
                      r.steps[w.kids[a].home].did)
    && (r.quiet ==> forall i :: 0 <= i < |w.nodes| && !w.nodes[i].faulted && SomeLeaves(Crowd(w.s, w.kids), i) ==> r.steps[i].did)
       // When no live kernel worked, only the children of dead ones have been woken.
    && (r.quiet && !Did(r.steps) ==>
          && r.sent == {} && ChildrenMay(Answered(r.idle, w.nodes), r.after, |w.nodes|)
          && forall i :: 0 <= i < |w.nodes| && !w.nodes[i].faulted ==> !r.steps[i].after.work)
  }

  // ------------------------------------------------------------ one round

  function NodeTimes(nodes: seq<Node>): set<int> {
    set i | 0 <= i < |nodes| && !nodes[i].faulted :: nodes[i].nextDue
  }

  function FrameTimes(frames: set<Frame>): set<int> {
    set f | f in frames :: f.due
  }

  function SleeperTimes(s: State): set<int> {
    set a | a in s.actors && s.actors[a].blocked && s.actors[a].deadline.Some? :: s.actors[a].deadline.value
  }

  /** Every time the clock must not jump over. */
  function Times(limit: Option<int>, nodes: seq<Node>, frames: set<Frame>, s: State): set<int> {
    (if limit.Some? then {limit.value} else {}) + NodeTimes(nodes) + FrameTimes(frames) + SleeperTimes(s)
  }

  ghost predicate IsMin(ts: set<int>, t: Option<int>) {
    && (t.None? <==> ts == {})
    && (t.Some? ==> t.value in ts && forall x :: x in ts ==> t.value <= x)
  }

  lemma {:induction false} MinExists(ts: set<int>) returns (t: Option<int>)
    ensures IsMin(ts, t)
    decreases |ts|
  {
    t := None;
    assert (forall x :: x !in ts) ==> ts == {};
    if x :| x in ts {
      var rest := MinExists(ts - {x});
      t := if rest.Some? && rest.value <= x then rest else Some(x);
      assert forall y :: y in ts ==> y == x || y in ts - {x};
    }
  }

  /** `next_event`. */
  ghost function NextEvent(ts: set<int>): (t: Option<int>)
    ensures IsMin(ts, t)
  {
    assert exists u :: IsMin(ts, u) by { var u := MinExists(ts); }
    var u :| IsMin(ts, u);
    u
  }

  function DueFrames(frames: set<Frame>, now: int): set<Frame> {
    set f | f in frames && f.due <= now
  }

  /** The log after handing over `fs` in some order. */
  ghost predicate HandsOver(before: seq<Handed>, fs: set<Frame>, at: int, after: seq<Handed>) {
    && |after| == |before| + |fs| && before <= after
    && (forall i :: |before| <= i < |after| ==> after[i].frame in fs && after[i].at == at)
    && (forall f :: f in fs ==> exists i :: |before| <= i < |after| && after[i].frame == f)
  }

  ghost predicate StepAll(w: World, r: Round, w': World) {
    && HandsOver(w.log, DueFrames(w.frames, w.s.now), w.s.now, w'.log)
    && w' == w.(s := r.after.s, kids := r.after.kids, frames := w.frames - DueFrames(w.frames, w.s.now) + r.sent,
                alerts := r.alerts, nodes := seq(|r.steps|, i requires 0 <= i < |r.steps| => r.steps[i].after), log := w'.log)
  }

  /** Count a busy round; with `cap` of them in one millisecond, time moves on anyway. */
  function Busy(w: World): World {
    var now := w.s.now;
    var rounds := if w.roundsAt == now then w.rounds + 1 else 1;
    w.(rounds := rounds, roundsAt := now, s := if rounds >= w.cap then AdvanceTo(w.s, now + 1) else w.s)
  }

  /** Where a quiet round moves the clock to. */
  ghost function Target(w: World, limit: Option<int>): int {
    var t := NextEvent(Times(limit, w.nodes, w.frames, w.s));
    if t.Some? && t.value > w.s.now then t.value else w.s.now + 1
  }

  /** `pump_virtual`, from the state after `step_all`. */
  ghost function Settle(w: World, limit: Option<int>, quiet: bool, did: bool): World {
    if did || !quiet then Busy(w)
    else if w.s.busy > 0 then w
    else w.(s := AdvanceTo(w.s, Target(w, limit)))
  }

  ghost predicate Pump(w: World, limit: Option<int>, r: Round, w': World) {
    exists m :: StepAll(w, r, m) && w' == Settle(m, limit, r.quiet, Did(r.steps))
  }

  // ------------------------------------------------------------ time is exact

  /** Between rounds: the scheduler is consistent and no frame is overdue. */
  ghost predicate SimInv(w: World) {
    && CrowdOk(Crowd(w.s, w.kids), |w.nodes|) && w.cap >= 1 && w.roundsAt <= w.s.now
    && (forall f :: f in w.frames ==> w.s.now <= f.due)
    && (forall i :: 0 <= i < |w.log| ==> w.log[i].at == w.log[i].frame.due)
  }

  lemma HandOne(before: seq<Handed>, done: set<Frame>, at: int, log: seq<Handed>, f: Frame)
    requires HandsOver(before, done, at, log) && f !in done
    ensures HandsOver(before, done + {f}, at, log + [Handed(f, at)])
  {
    var after := log + [Handed(f, at)];
    forall g | g in done + {f} ensures exists i :: |before| <= i < |after| && after[i].frame == g {
      if g == f {
        assert after[|log|].frame == g;
      } else {
        var i :| |before| <= i < |log| && log[i].frame == g;
        assert after[i].frame == g;
      }
    }
  }

  /** Any set of frames can be handed over. */
  lemma {:induction false} CanHandOver(before: seq<Handed>, fs: set<Frame>, at: int) returns (after: seq<Handed>)
    ensures HandsOver(before, fs, at, after)
    decreases |fs|
  {
    if f :| f in fs {
      after := CanHandOver(before, fs - {f}, at);
      HandOne(before, fs - {f}, at, after, f);
      after := after + [Handed(f, at)];
      assert fs - {f} + {f} == fs;
    } else {
      after := before;
    }
  }

  /** The clock wakes sleepers and nobody else. */
  lemma AdvanceKeepsCrowd(c: Crowd, t: int, computers: nat)
    requires CrowdOk(c, computers)
    ensures CrowdOk(Crowd(AdvanceTo(c.s, t), c.kids), computers)
  {
    AdvanceInv(c.s, t);
  }

  lemma StepAllKeeps(w: World, r: Round, m: World)
    requires SimInv(w) && Possible(w, r) && StepAll(w, r, m)
    ensures SimInv(m) && m.s.now == w.s.now
    ensures forall f :: f in m.frames ==> m.s.now < f.due
    ensures forall i :: 0 <= i < |m.nodes| && !m.nodes[i].faulted ==> m.nodes[i].nextDue >= m.s.now
    ensures !Did(r.steps) ==> forall i :: 0 <= i < |m.nodes| && !m.nodes[i].faulted ==> m.nodes[i].nextDue > m.s.now
  {
    forall i | 0 <= i < |m.nodes|
      ensures !m.nodes[i].faulted ==> m.nodes[i].nextDue >= m.s.now && (!Did(r.steps) ==> m.nodes[i].nextDue > m.s.now)
    {
      assert NodeMay(w.s.now, w.nodes[i], r.steps[i]);
    }
    forall i | 0 <= i < |m.log| ensures m.log[i].at == m.log[i].frame.due {
      if i < |w.log| { assert m.log[i] == w.log[i]; }
    }
  }

  /** Nothing that is scheduled lies strictly before `t`. */
  ghost predicate NothingBefore(w: World, t: int) {
    && (forall f :: f in w.frames ==> t <= f.due)
    && (forall a :: a in w.s.actors && w.s.actors[a].blocked && w.s.actors[a].deadline.Some? ==>
                      t <= w.s.actors[a].deadline.value)
  }

  /** A quiet round moves the clock to the next scheduled time and no further. */
  lemma TargetIsExact(m: World, limit: Option<int>)
    requires Inv(m.s) && (forall f :: f in m.frames ==> m.s.now < f.due)
    requires forall i :: 0 <= i < |m.nodes| && !m.nodes[i].faulted ==> m.nodes[i].nextDue > m.s.now
    ensures Target(m, limit) > m.s.now && NothingBefore(m, Target(m, limit))
    ensures forall i :: 0 <= i < |m.nodes| && !m.nodes[i].faulted ==> Target(m, limit) <= m.nodes[i].nextDue
    ensures limit.Some? && m.s.now < limit.value ==> Target(m, limit) <= limit.value
  {
    var ts := Times(limit, m.nodes, m.frames, m.s);
    forall f | f in m.frames ensures f.due in ts { }
    forall a | a in m.s.actors && m.s.actors[a].blocked && m.s.actors[a].deadline.Some?
      ensures m.s.actors[a].deadline.value in ts {
    }
    forall i | 0 <= i < |m.nodes| && !m.nodes[i].faulted ensures m.nodes[i].nextDue in ts { }
  }

  /** Something is scheduled at `t`: the limit, a live kernel's tick, a delayed frame, or a sleeper's deadline. */
  ghost predicate ScheduledAt(w: World, limit: Option<int>, t: int) {
    || limit == Some(t)
    || (exists i :: 0 <= i < |w.nodes| && !w.nodes[i].faulted && w.nodes[i].nextDue == t)
    || (exists f :: f in w.frames && f.due == t)
    || (exists a :: a in w.s.actors && w.s.actors[a].blocked && w.s.actors[a].deadline == Some(t))
  }

  /** Where the clock of `w` goes when there is nothing to do: to the first scheduled time, if there is one and the limit
      is not behind; else one millisecond on. */
  ghost predicate LandsAt(w: World, limit: Option<int>, to: int) {
    if (limit.Some? && limit.value <= w.s.now) || forall t :: !ScheduledAt(w, limit, t)
    then to == w.s.now + 1
    else ScheduledAt(w, limit, to) && forall t :: ScheduledAt(w, limit, t) ==> to <= t
  }

  lemma ScheduledMeansTimes(w: World, limit: Option<int>, t: int)
    ensures ScheduledAt(w, limit, t) <==> t in Times(limit, w.nodes, w.frames, w.s)
  {
    if i :| 0 <= i < |w.nodes| && !w.nodes[i].faulted && w.nodes[i].nextDue == t { assert t in NodeTimes(w.nodes); }
    if f :| f in w.frames && f.due == t { assert t in FrameTimes(w.frames); }
    if a :| a in w.s.actors && w.s.actors[a].blocked && w.s.actors[a].deadline == Some(t) { assert t in SleeperTimes(w.s); }
  }

  /** A quiet round goes to the first time for which something is scheduled. */
  lemma TargetIsScheduled(m: World, limit: Option<int>)
    requires Inv(m.s) && (forall f :: f in m.frames ==> m.s.now < f.due)
    requires forall i :: 0 <= i < |m.nodes| && !m.nodes[i].faulted ==> m.nodes[i].nextDue > m.s.now
    ensures LandsAt(m, limit, Target(m, limit))
  {
    var ts := Times(limit, m.nodes, m.frames, m.s);
    forall t ensures ScheduledAt(m, limit, t) <==> t in ts { ScheduledMeansTimes(m, limit, t); }
    var next := NextEvent(ts);
    if next.Some? {
      assert ScheduledAt(m, limit, next.value);
    } else {
      assert forall t :: t !in ts;
    }
  }

  /** What the round did to the clock and to the count of busy rounds. */
  ghost predicate RoundEnds(w: World, limit: Option<int>, quiet: bool, did: bool, rounds: nat, roundsAt: int, w': World) {
    if did || !quiet then
      && w'.roundsAt == w.s.now && w'.rounds == (if roundsAt == w.s.now then rounds + 1 else 1)
      && w'.s.now == (if w'.rounds < w.cap then w.s.now else w.s.now + 1)
    else
      && w'.rounds == rounds && w'.roundsAt == roundsAt
      && if w.s.busy > 0 then w'.s.now == w.s.now else LandsAt(w, limit, w'.s.now)
  }

  /** A busy millisecond ends after `cap` busy rounds, a round with children still running leaves the clock alone, and
      an idle one moves it to the next thing to do. */
  lemma SettleMeaning(m: World, limit: Option<int>, quiet: bool, did: bool)
    requires Inv(m.s) && m.cap >= 1 && (forall f :: f in m.frames ==> m.s.now < f.due)
    requires quiet && !did ==> forall i :: 0 <= i < |m.nodes| && !m.nodes[i].faulted ==> m.nodes[i].nextDue > m.s.now
    ensures RoundEnds(m, limit, quiet, did, m.rounds, m.roundsAt, Settle(m, limit, quiet, did))
  {
    if quiet && !did && m.s.busy == 0 {
      TargetIsScheduled(m, limit);
      TargetIsExact(m, limit);
    }
  }

  /** One round never turns the clock back, never passes a delayed frame or a sleeper's deadline, and stays
      within the limit. Every frame is handed over at exactly its due time. */
  lemma PumpIsExact(w: World, limit: Option<int>, r: Round, m: World, w': World)
    requires SimInv(w) && Possible(w, r) && StepAll(w, r, m) && w' == Settle(m, limit, r.quiet, Did(r.steps))
    ensures SimInv(w') && w'.s.now >= w.s.now && NothingBefore(m, w'.s.now)
    ensures limit.Some? && w.s.now < limit.value ==> w'.s.now <= limit.value
    ensures w'.nodes == m.nodes && w'.frames == m.frames && w'.log == m.log
  {
    StepAllKeeps(w, r, m);
    if Did(r.steps) || !r.quiet {
      BusyKeeps(m);
    } else if m.s.busy == 0 {
      TargetIsExact(m, limit);
      JumpKeeps(m, Target(m, limit));
    } else {
      assert w' == m;
    }
  }

  lemma BusyKeeps(m: World)
    requires SimInv(m) && forall f :: f in m.frames ==> m.s.now < f.due
    ensures SimInv(Busy(m)) && m.s.now <= Busy(m).s.now <= m.s.now + 1 && NothingBefore(m, Busy(m).s.now)
  {
    AdvanceInv(m.s, m.s.now + 1);
    AdvanceKeepsCrowd(Crowd(m.s, m.kids), m.s.now + 1, |m.nodes|);
  }

  lemma JumpKeeps(m: World, t: int)
    requires SimInv(m) && m.s.now < t && NothingBefore(m, t)
    ensures SimInv(m.(s := AdvanceTo(m.s, t))) && AdvanceTo(m.s, t).now == t
  {
    AdvanceInv(m.s, t);
    AdvanceKeepsCrowd(Crowd(m.s, m.kids), t, |m.nodes|);
  }

  /** The busy rounds already made in this millisecond. */
  function RoundsUsed(w: World): nat { if w.roundsAt == w.s.now then w.rounds else 0 }

  /** A live kernel's tick is passed exactly when the kernel asked for another tick in this very millisecond
      and the busy rounds allowed in it are used up (see `LateTick`); the clock has then moved by one. */
  lemma TickPassed(w: World, limit: Option<int>, r: Round, m: World, w': World, i: nat)
    requires SimInv(w) && Possible(w, r) && StepAll(w, r, m) && w' == Settle(m, limit, r.quiet, Did(r.steps))
    requires i < |m.nodes| && !m.nodes[i].faulted
    ensures m.nodes[i].nextDue < w'.s.now <==>
              (Did(r.steps) || !r.quiet) && RoundsUsed(w) + 1 >= w.cap && m.nodes[i].nextDue == w.s.now
    ensures m.nodes[i].nextDue < w'.s.now ==> w'.s.now == w.s.now + 1
  {
    StepAllKeeps(w, r, m);
    if r.quiet && !Did(r.steps) { TargetIsExact(m, limit); }
  }

  /** The clock can pass a live kernel's tick: one that always asks to be ticked at once gets its tick late. */
  lemma LateTick() returns (w: World, r: Round, m: World, w': World)
    ensures SimInv(w) && Possible(w, r) && StepAll(w, r, m) && w' == Settle(m, None, r.quiet, Did(r.steps))
    ensures |m.nodes| == 1 && !m.nodes[0].faulted && m.nodes[0].nextDue < w'.s.now
  {
    var idle := State(1, map[], 0, 0, 0);
    assert Running(idle) == {};
    var none := Crowd(idle, map[]);
    w := World(idle, map[], 1, 0, -1, [Node(false, 0, false)], {}, {}, []);
    r := Round(true, none, [NodeStep(true, Node(false, 0, false))], {}, {}, none);
    assert Did(r.steps) by { assert r.steps[0].did; }
    assert DueFrames({}, 0) == {};
    m := w;
    w' := Settle(m, None, true, true);
  }

  /** Every state has a possible round: the children run on, and every live kernel works. */
  lemma SomeRoundIsPossible(w: World) returns (r: Round)
    requires SimInv(w)
    ensures Possible(w, r)
  {
    var c := Crowd(w.s, w.kids);
    var steps := seq(|w.nodes|, i requires 0 <= i < |w.nodes| =>
      if w.nodes[i].faulted then NodeStep(false, w.nodes[i]) else NodeStep(true, Node(false, w.s.now, false)));
    r := Round(false, c, steps, {}, w.alerts, c);
  }

  // ------------------------------------------------------------ bounded progress

  function Slack(w: World): nat {
    if w.roundsAt != w.s.now then w.cap
    else if w.cap <= w.rounds then 0 else w.cap - w.rounds
  }

  /** Rounds left before the deadline, at most. */
  function Measure(w: World, deadline: int): int
    requires w.s.now <= deadline
  {
    (deadline - w.s.now) * (w.cap + 1) + Slack(w)
  }

  lemma Shrinks(d: int, d': int, k: nat, slack: nat, slack': nat)
    requires 0 <= d' <= d && slack' < k
    requires d' < d || slack' < slack
    ensures d' * k + slack' < d * k + slack
  {
    if d' < d {
      assert d * k == (d - 1) * k + k;
      assert d' * k <= (d - 1) * k;
    }
  }

  /** The children all slept and no kernel worked, yet a child runs afterwards: a dead kernel has answered it. */
  predicate Stalling(r: Round) { r.quiet && !Did(r.steps) && r.after.s.busy > 0 }

  /** No live kernel will have anything to do. */
  ghost predicate Calm(w: World) {
    forall i :: 0 <= i < |w.nodes| && !w.nodes[i].faulted ==>
      !w.nodes[i].work && w.nodes[i].nextDue > w.s.now && !Interrupted(w, i) && !SomeLeaves(Crowd(w.s, w.kids), i)
  }

  /** Child `a` asks a dead kernel, or may do so before all children sleep. */
  ghost predicate MayAsk(w: World, a: ActorId) {
    a in w.kids && Dead(w.nodes, w.kids[a].home) && (w.kids[a].asks || Able(Crowd(w.s, w.kids), a))
  }

  ghost predicate CanStall(w: World) {
    Calm(w) && exists a :: MayAsk(w, a)
  }

  lemma StallIsCalm(w: World, r: Round)
    requires SimInv(w) && Possible(w, r) && Stalling(r)
    ensures Calm(w)
  {
    forall i | 0 <= i < |w.nodes| && !w.nodes[i].faulted
      ensures !w.nodes[i].work && w.nodes[i].nextDue > w.s.now && !Interrupted(w, i) && !SomeLeaves(Crowd(w.s, w.kids), i)
    {
      assert NodeMay(w.s.now, w.nodes[i], r.steps[i]);
    }
  }

  lemma NobodyLively(c: Crowd, h: nat)
    requires Inv(c.s) && c.s.busy == 0
    ensures !Lively(c, h)
  {
    assert Running(c.s) == {};
    forall a | a in c.s.actors ensures !Runs(c, a) { assert a !in Running(c.s); }
  }

  /** Where nobody runs nobody will. */
  lemma NobodyStarts(c: Crowd, d: Crowd, computers: nat)
    requires Inv(c.s) && c.kids.Keys == c.s.actors.Keys && c.s.busy == 0 && ChildrenMay(c, d, computers)
    ensures d.s.busy == 0
  {
    forall a | a in d.s.actors ensures !Runs(d, a) {
      NobodyLively(c, c.kids[a].home);
      assert Stays(c, d, a) && a !in Running(c.s);
    }
    assert Running(d.s) == {};
  }

  lemma NoneRefused(c: Crowd, nodes: seq<Node>)
    ensures Refused(c, nodes) == {} ==>
              Answered(c, nodes).s.actors == c.s.actors && Answered(c, nodes).s.busy == c.s.busy
              && Answered(c, nodes).kids == c.kids
  {
  }

  /** If nobody asks a dead kernel, nobody runs afterwards. */
  lemma NobodyAsked(c: Crowd, d: Crowd, nodes: seq<Node>)
    requires CrowdOk(c, |nodes|) && c.s.busy == 0 && ChildrenMay(Answered(c, nodes), d, |nodes|)
    ensures Refused(c, nodes) == {} ==> d.s.busy == 0
  {
    NoneRefused(c, nodes);
    if Refused(c, nodes) == {} {
      assert Running(Answered(c, nodes).s) == Running(c.s);
      NobodyStarts(Answered(c, nodes), d, |nodes|);
    }
  }

  /** Somebody asked a dead kernel. */
  lemma StallNeedsAsker(w: World, r: Round) returns (a: ActorId)
    requires SimInv(w) && Possible(w, r) && Stalling(r)
    ensures a in r.idle.kids && r.idle.kids[a].asks && Dead(w.nodes, r.idle.kids[a].home)
  {
    NobodyAsked(r.idle, r.after, w.nodes);
    a :| a in Refused(r.idle, w.nodes);
  }

  lemma StallCause(w: World, r: Round)
    requires SimInv(w) && Possible(w, r) && Stalling(r)
    ensures CanStall(w)
  {
    StallIsCalm(w, r);
    var a := StallNeedsAsker(w, r);
    var c := Crowd(w.s, w.kids);
    if w.kids[a].asks {
      assert MayAsk(w, a);
    } else {
      assert CallerAt(c, w.kids[a].home);
      var b :| b in c.kids && c.kids[b].home == w.kids[a].home && Able(c, b);
      assert MayAsk(w, b);
    }
  }

  lemma StallMovesNothing(w: World, deadline: int, r: Round, m: World, w': World)
    requires Stalling(r) && StepAll(w, r, m) && r.after.s.now == w.s.now < deadline
    requires w' == Settle(m, Some(deadline), r.quiet, Did(r.steps))
    ensures w' == m && w'.s.now == w.s.now && Measure(w', deadline) == Measure(w, deadline)
  {
  }

  lemma SettlingShrinks(w: World, deadline: int, r: Round, m: World, w': World)
    requires !Stalling(r) && StepAll(w, r, m) && w' == Settle(m, Some(deadline), r.quiet, Did(r.steps))
    requires w.roundsAt <= w.s.now == m.s.now <= w'.s.now <= deadline && w.cap >= 1 && m.s.busy >= 0
    requires Settle(m, Some(deadline), true, false).s.now > m.s.now || m.s.busy > 0
    ensures Measure(w', deadline) < Measure(w, deadline)
  {
    Shrinks(deadline - w.s.now, deadline - w'.s.now, w.cap + 1, Slack(w), Slack(w'));
  }

  lemma QuietMoves(m: World, limit: Option<int>)
    ensures Settle(m, limit, true, false).s.now > m.s.now || m.s.busy > 0
  {
  }

  /** A round before the deadline makes progress if and only if it is not a stalling one; none overshoots. */
  lemma RoundProgresses(w: World, deadline: int, r: Round, w': World)
    requires SimInv(w) && Possible(w, r) && Pump(w, Some(deadline), r, w') && w.s.now < deadline
    ensures SimInv(w') && w.s.now <= w'.s.now <= deadline && w'.cap == w.cap
    ensures Measure(w', deadline) < Measure(w, deadline) <==> !Stalling(r)
    ensures Stalling(r) ==> Measure(w', deadline) == Measure(w, deadline) && w'.s.now == w.s.now && CanStall(w)
  {
    var m :| StepAll(w, r, m) && w' == Settle(m, Some(deadline), r.quiet, Did(r.steps));
    SettledProgresses(w, deadline, r, m, w');
  }

  lemma SettledProgresses(w: World, deadline: int, r: Round, m: World, w': World)
    requires SimInv(w) && Possible(w, r) && StepAll(w, r, m) && w.s.now < deadline
    requires w' == Settle(m, Some(deadline), r.quiet, Did(r.steps))
    ensures SimInv(w') && w.s.now <= w'.s.now <= deadline && w'.cap == w.cap
    ensures Measure(w', deadline) < Measure(w, deadline) <==> !Stalling(r)
    ensures Stalling(r) ==> Measure(w', deadline) == Measure(w, deadline) && w'.s.now == w.s.now && CanStall(w)
  {
    PumpIsExact(w, Some(deadline), r, m, w');
    StepAllKeeps(w, r, m);
    if Stalling(r) {
      StallMovesNothing(w, deadline, r, m, w');
      StallCause(w, r);
    } else {
      QuietMoves(m, Some(deadline));
      SettlingShrinks(w, deadline, r, m, w');
    }
  }

  /** Some round from here makes no progress. */
  ghost predicate MayStall(w: World, deadline: int)
    requires w.s.now < deadline
  {
    exists r, w' :: Standstill(w, deadline, r, w')
  }

  ghost predicate Standstill(w: World, deadline: int, r: Round, w': World)
    requires w.s.now < deadline
  {
    && Possible(w, r) && Pump(w, Some(deadline), r, w')
    && w'.s.now <= deadline && Measure(w', deadline) >= Measure(w, deadline)
  }

  lemma StandstillCause(w: World, deadline: int, r: Round, w': World)
    requires SimInv(w) && w.s.now < deadline && Standstill(w, deadline, r, w')
    ensures CanStall(w)
  {
    RoundProgresses(w, deadline, r, w');
  }

  lemma StallStandsStill(w: World, deadline: int, a: ActorId)
    requires SimInv(w) && Calm(w) && MayAsk(w, a) && w.s.now < deadline
    ensures MayStall(w, deadline)
  {
    var r, w' := OneStall(w, deadline, a);
    RoundProgresses(w, deadline, r, w');
    assert Standstill(w, deadline, r, w');
  }

  /** All children asleep: those on their way out have left, `a` asks, and who ran otherwise sleeps a millisecond. */
  function AsleepBut(c: Crowd, a: ActorId): Crowd {
    Crowd(c.s.(busy := 0, actors := map x | x in c.s.actors && x in c.kids && !c.kids[x].ended ::
                 if x == a || c.kids[x].asks then Actor(true, None)
                 else if Runs(c, x) || c.kids[x].freed then Actor(true, Some(c.s.now + 1))
                 else c.s.actors[x]),
          map x | x in c.kids && !c.kids[x].ended :: c.kids[x].(asks := x == a || c.kids[x].asks, freed := false))
  }

  lemma AsleepButOk(c: Crowd, a: ActorId, computers: nat)
    requires CrowdOk(c, computers) && a in c.kids
    ensures CrowdOk(AsleepBut(c, a), computers)
  {
    assert Running(AsleepBut(c, a).s) == {};
  }

  /** The children can get there. */
  lemma AllCanSleep(c: Crowd, a: ActorId, computers: nat)
    requires CrowdOk(c, computers) && a in c.kids && !c.kids[a].ended && (c.kids[a].asks || Able(c, a))
    ensures ChildrenMay(c, AsleepBut(c, a), computers)
  {
    var d := AsleepBut(c, a);
    AsleepButOk(c, a, computers);
    forall x | x in d.kids && d.kids[x].asks && !c.kids[x].asks ensures CallerAt(c, c.kids[x].home) {
      assert x == a && Able(c, a);
    }
    forall x | x in c.kids && !Lively(c, c.kids[x].home) ensures Stays(c, d, x) { StaysAsleep(c, a, x, computers); }
  }

  lemma LeaversRun(c: Crowd, h: nat, computers: nat)
    requires CrowdOk(c, computers)
    ensures SomeLeaves(c, h) ==> Lively(c, h)
  {
  }

  lemma StaysAsleep(c: Crowd, a: ActorId, x: ActorId, computers: nat)
    requires CrowdOk(c, computers) && a in c.kids && (c.kids[a].asks || Able(c, a))
    requires x in c.kids && !Lively(c, c.kids[x].home)
    ensures Stays(c, AsleepBut(c, a), x)
  {
    LeaversRun(c, c.kids[x].home, computers);
    assert !Runs(c, x);
  }

  lemma ReleaseInv(s: State, ids: set<ActorId>)
    requires Inv(s) && forall a :: a in ids ==> a in s.actors && s.actors[a].blocked
    ensures Inv(Release(s, ids))
  {
    assert Running(Release(s, ids)) == Running(s) + ids;
    assert Running(s) !! ids;
  }

  lemma AnsweredOk(c: Crowd, nodes: seq<Node>)
    requires CrowdOk(c, |nodes|) && forall a :: a in c.kids ==> !c.kids[a].freed
    ensures CrowdOk(Answered(c, nodes), |nodes|)
  {
    var ids := set a | a in Refused(c, nodes) && a in c.s.actors && c.s.actors[a].blocked;
    ReleaseInv(c.s, ids);
  }

  lemma StayingMay(c: Crowd, computers: nat)
    requires CrowdOk(c, computers)
    ensures ChildrenMay(c, c, computers)
  {
  }

  /** A round in which child `a` asks its dead kernel and is answered with an error. */
  ghost function StallRound(w: World, a: ActorId): Round {
    var idle := AsleepBut(Crowd(w.s, w.kids), a);
    Round(true, idle, Idling(w.nodes), {}, w.alerts, Answered(idle, w.nodes))
  }

  function Idling(nodes: seq<Node>): (steps: seq<NodeStep>)
    ensures |steps| == |nodes| && !Did(steps)
  {
    seq(|nodes|, i requires 0 <= i < |nodes| => NodeStep(false, nodes[i]))
  }

  lemma CalmIsIdle(w: World)
    requires Calm(w)
    ensures forall i :: 0 <= i < |w.nodes| ==> NodeMay(w.s.now, w.nodes[i], Idling(w.nodes)[i])
    ensures forall i :: 0 <= i < |w.nodes| && !w.nodes[i].faulted ==>
              !Interrupted(w, i) && !SomeLeaves(Crowd(w.s, w.kids), i) && !Idling(w.nodes)[i].after.work
  {
  }

  lemma StallIsPossible(w: World, a: ActorId)
    requires SimInv(w) && Calm(w) && MayAsk(w, a)
    ensures Possible(w, StallRound(w, a))
  {
    var idle := AsleepBut(Crowd(w.s, w.kids), a);
    AllCanSleep(Crowd(w.s, w.kids), a, |w.nodes|);
    AnsweredOk(idle, w.nodes);
    StayingMay(Answered(idle, w.nodes), |w.nodes|);
    CalmIsIdle(w);
  }

  lemma StallAnswers(w: World, a: ActorId)
    requires SimInv(w) && MayAsk(w, a)
    ensures AnsweredIn(StallRound(w, a), a) && Stalling(StallRound(w, a))
  {
    var c := Crowd(w.s, w.kids);
    var idle := AsleepBut(c, a);
    AsleepButOk(c, a, |w.nodes|);
    AnsweredOk(idle, w.nodes);
    assert !c.kids[a].ended;
    assert a in Refused(idle, w.nodes);
    assert a in Running(Answered(idle, w.nodes).s);
  }

  /** In this round child `a` was asleep with a request and then answered. */
  predicate AnsweredIn(r: Round, a: ActorId) {
    a in r.idle.kids && r.idle.kids[a].asks && !Runs(r.idle, a) && Runs(r.after, a)
  }

  ghost function AfterStall(w: World, a: ActorId, log: seq<Handed>): World {
    var r := StallRound(w, a);
    w.(s := r.after.s, kids := r.after.kids, frames := w.frames - DueFrames(w.frames, w.s.now), log := log)
  }

  lemma StallSettles(w: World, deadline: int, a: ActorId) returns (w': World)
    requires Stalling(StallRound(w, a))
    ensures exists log :: w' == AfterStall(w, a, log)
    ensures Pump(w, Some(deadline), StallRound(w, a), w')
  {
    var r := StallRound(w, a);
    var log := CanHandOver(w.log, DueFrames(w.frames, w.s.now), w.s.now);
    w' := AfterStall(w, a, log);
    assert seq(|r.steps|, i requires 0 <= i < |r.steps| => r.steps[i].after) == w.nodes;
    assert w.frames - DueFrames(w.frames, w.s.now) + {} == w.frames - DueFrames(w.frames, w.s.now);
    assert StepAll(w, r, w');
    assert w' == Settle(w', Some(deadline), true, false);
  }

  lemma StaysCalm(w: World, a: ActorId, log: seq<Handed>)
    requires Calm(w)
    ensures Calm(AfterStall(w, a, log))
  {
    var w' := AfterStall(w, a, log);
    assert w'.s.now == w.s.now && DueFrames(w'.frames, w.s.now) == {};
    assert forall x :: x in w'.kids ==> !w'.kids[x].ended;
  }

  lemma AsksAgain(w: World, a: ActorId, log: seq<Handed>)
    requires MayAsk(w, a) && AnsweredIn(StallRound(w, a), a)
    ensures MayAsk(AfterStall(w, a, log), a)
  {
  }

  /** After such a round the child runs, so it may ask again, and there is still nothing for live kernels to do. */
  lemma OneStall(w: World, deadline: int, a: ActorId) returns (r: Round, w': World)
    requires SimInv(w) && Calm(w) && MayAsk(w, a) && w.s.now < deadline
    ensures Possible(w, r) && Stalling(r) && AnsweredIn(r, a) && Pump(w, Some(deadline), r, w')
    ensures Calm(w') && MayAsk(w', a)
  {
    r := StallRound(w, a);
    StallIsPossible(w, a);
    StallAnswers(w, a);
    w' := StallSettles(w, deadline, a);
    var log :| w' == AfterStall(w, a, log);
    StaysCalm(w, a, log);
    AsksAgain(w, a, log);
  }

  /** When progress can fail, read off the state before the round: exactly if no live kernel will have anything to do,
      and a child of a dead kernel waits for its answer or may still ask. */
  lemma StallsExactlyIf(w: World, deadline: int)
    requires SimInv(w) && w.s.now < deadline
    ensures MayStall(w, deadline) <==> CanStall(w)
  {
    if CanStall(w) {
      var a :| MayAsk(w, a);
      StallStandsStill(w, deadline, a);
    }
    if MayStall(w, deadline) {
      var r, w' :| Standstill(w, deadline, r, w');
      StandstillCause(w, deadline, r, w');
    }
  }

  /** With no dead kernel every round before the deadline makes progress, and none overshoots it. */
  lemma PumpProgresses(w: World, deadline: int, r: Round, w': World)
    requires SimInv(w) && Possible(w, r) && Pump(w, Some(deadline), r, w')
    requires w.s.now < deadline && !AnyFaulted(w.nodes)
    ensures SimInv(w') && w.s.now <= w'.s.now <= deadline && w'.cap == w.cap
    ensures Measure(w', deadline) < Measure(w, deadline)
  {
    RoundProgresses(w, deadline, r, w');
  }

  /** `ws` is a run of rounds before the deadline, as `run_until` makes them while its predicate is false. */
  ghost predicate RunsUntil(ws: seq<World>, deadline: int, rounds: seq<Round>) {
    && |ws| == |rounds| + 1
    && forall i :: 0 <= i < |rounds| ==> RoundAt(ws, deadline, rounds, i)
  }

  ghost predicate RoundAt(ws: seq<World>, deadline: int, rounds: seq<Round>, i: nat)
    requires i < |rounds| < |ws|
  {
    ws[i].s.now < deadline && Possible(ws[i], rounds[i]) && Pump(ws[i], Some(deadline), rounds[i], ws[i + 1])
  }

  lemma TailRuns(ws: seq<World>, deadline: int, rounds: seq<Round>)
    requires RunsUntil(ws, deadline, rounds) && rounds != []
    ensures RunsUntil(ws[1..], deadline, rounds[1..])
  {
    var us, rs := ws[1..], rounds[1..];
    forall i | 0 <= i < |rs| ensures RoundAt(us, deadline, rs, i) { assert RoundAt(ws, deadline, rounds, i + 1); }
  }

  /** The rounds that do not stall. */
  function Progressing(rounds: seq<Round>): nat {
    if rounds == [] then 0 else (if Stalling(rounds[0]) then 0 else 1) + Progressing(rounds[1..])
  }

  /** Whatever kernels die, a run has at most (deadline - now) * (cap + 1) + cap rounds that do not stall, and the clock
      never overshoots the deadline. */
  lemma {:induction false} BoundedProgress(ws: seq<World>, deadline: int, rounds: seq<Round>)
    requires RunsUntil(ws, deadline, rounds) && SimInv(ws[0]) && ws[0].s.now <= deadline
    ensures SimInv(ws[|rounds|]) && ws[0].s.now <= ws[|rounds|].s.now <= deadline
    ensures Progressing(rounds) <= Measure(ws[0], deadline) - Measure(ws[|rounds|], deadline)
    ensures Progressing(rounds) <= (deadline - ws[0].s.now) * (ws[0].cap + 1) + ws[0].cap
  {
    ProgressIsPaid(ws, deadline, rounds);
    MeasureBounds(ws[0], deadline);
  }

  lemma {:induction false} ProgressIsPaid(ws: seq<World>, deadline: int, rounds: seq<Round>)
    requires RunsUntil(ws, deadline, rounds) && SimInv(ws[0]) && ws[0].s.now <= deadline
    ensures SimInv(ws[|rounds|]) && ws[0].s.now <= ws[|rounds|].s.now <= deadline
    ensures Progressing(rounds) + Measure(ws[|rounds|], deadline) <= Measure(ws[0], deadline)
    ensures 0 <= Measure(ws[|rounds|], deadline)
    decreases |rounds|
  {
    if rounds == [] {
      MeasureBounds(ws[0], deadline);
    } else {
      FirstRound(ws, deadline, rounds);
      TailRuns(ws, deadline, rounds);
      ProgressIsPaid(ws[1..], deadline, rounds[1..]);
    }
  }

  lemma FirstRound(ws: seq<World>, deadline: int, rounds: seq<Round>)
    requires RunsUntil(ws, deadline, rounds) && rounds != [] && SimInv(ws[0])
    ensures SimInv(ws[1]) && ws[0].s.now <= ws[1].s.now <= deadline
    ensures Measure(ws[1], deadline) + (if Stalling(rounds[0]) then 0 else 1) <= Measure(ws[0], deadline)
    ensures Stalling(rounds[0]) ==> AnyFaulted(ws[0].nodes)
  {
    assert RoundAt(ws, deadline, rounds, 0);
    RoundProgresses(ws[0], deadline, rounds[0], ws[1]);
  }

  /** `run_until` ends: while no kernel is dead no round stalls, so all rounds are bounded. */
  lemma {:induction false} NoDeadKernelNoStall(ws: seq<World>, deadline: int, rounds: seq<Round>)
    requires RunsUntil(ws, deadline, rounds) && SimInv(ws[0]) && ws[0].s.now <= deadline
    requires forall i :: 0 <= i < |rounds| ==> !AnyFaulted(ws[i].nodes)
    ensures Progressing(rounds) == |rounds|
    decreases |rounds|
  {
    if rounds != [] {
      FirstRound(ws, deadline, rounds);
      TailRuns(ws, deadline, rounds);
      NoDeadKernelNoStall(ws[1..], deadline, rounds[1..]);
    }
  }

  lemma MeasureBounds(w: World, deadline: int)
    requires w.s.now <= deadline
    ensures 0 <= Measure(w, deadline) <= (deadline - w.s.now) * (w.cap + 1) + w.cap
  {
    assert 0 <= (deadline - w.s.now) * (w.cap + 1);
  }

  /** The clock stands, and progress can fail again. */
  ghost predicate Stuck(w: World, now: int) { w.s.now == now && CanStall(w) }

  predicate AskedInVain(r: Round, a: ActorId) { Stalling(r) && AnsweredIn(r, a) }

  /** A run in which the clock stands still and child `a` asks in vain in every round. */
  ghost predicate StandingRun(ws: seq<World>, deadline: int, rounds: seq<Round>, a: ActorId, now: int) {
    && RunsUntil(ws, deadline, rounds)
    && AllStuck(ws, now) && AllInVain(rounds, a)
  }

  ghost predicate AllStuck(ws: seq<World>, now: int) {
    forall i :: 0 <= i < |ws| ==> Stuck(ws[i], now)
  }

  predicate AllInVain(rounds: seq<Round>, a: ActorId) {
    forall i :: 0 <= i < |rounds| ==> AskedInVain(rounds[i], a)
  }

  lemma OneStuckMore(w: World, us: seq<World>, now: int)
    requires Stuck(w, now) && AllStuck(us, now)
    ensures AllStuck([w] + us, now)
  {
    var ws := [w] + us;
    forall i | 0 <= i < |ws| ensures Stuck(ws[i], now) {
      if i > 0 { assert ws[i] == us[i - 1] && Stuck(us[i - 1], now); }
    }
  }

  lemma OneInVainMore(r: Round, rs: seq<Round>, a: ActorId)
    requires AskedInVain(r, a) && AllInVain(rs, a)
    ensures AllInVain([r] + rs, a)
  {
    var rounds := [r] + rs;
    forall i | 0 <= i < |rounds| ensures AskedInVain(rounds[i], a) {
      if i > 0 { assert rounds[i] == rs[i - 1] && AskedInVain(rs[i - 1], a); }
    }
  }

  lemma StandsBefore(w: World, deadline: int, a: ActorId)
    requires Calm(w) && MayAsk(w, a)
    ensures StandingRun([w], deadline, [], a, w.s.now) && Stuck(w, w.s.now)
  {
  }

  lemma StandsOn(w: World, deadline: int, r: Round, us: seq<World>, rs: seq<Round>, a: ActorId, now: int)
    requires StandingRun(us, deadline, rs, a, now) && Stuck(w, now) && now < deadline
    requires Possible(w, r) && AskedInVain(r, a) && Pump(w, Some(deadline), r, us[0])
    ensures StandingRun([w] + us, deadline, [r] + rs, a, now)
  {
    OneRoundMore(w, deadline, r, us, rs);
    OneStuckMore(w, us, now);
    OneInVainMore(r, rs, a);
  }

  /** From every such state `run_until` need never end: there are runs of any length in which the same child asks its dead
      kernel in every round, is answered, runs, and asks again, while the clock stands still. */
  lemma {:induction false} DeadKernelStalls(w: World, deadline: int, a: ActorId, n: nat)
    returns (ws: seq<World>, rounds: seq<Round>)
    requires SimInv(w) && Calm(w) && MayAsk(w, a) && w.s.now < deadline
    ensures |rounds| == n && ws != [] && ws[0] == w && StandingRun(ws, deadline, rounds, a, w.s.now)
    decreases n
  {
    StandsBefore(w, deadline, a);
    if n == 0 {
      ws, rounds := [w], [];
    } else {
      var r, w' := StuckRound(w, deadline, a);
      var us, rs := DeadKernelStalls(w', deadline, a, n - 1);
      StandsOn(w, deadline, r, us, rs, a, w.s.now);
      ws, rounds := [w] + us, [r] + rs;
    }
  }

  lemma StuckRound(w: World, deadline: int, a: ActorId) returns (r: Round, w': World)
    requires SimInv(w) && Calm(w) && MayAsk(w, a) && w.s.now < deadline
    ensures Possible(w, r) && AskedInVain(r, a) && Pump(w, Some(deadline), r, w')
    ensures SimInv(w') && Calm(w') && MayAsk(w', a) && w'.s.now == w.s.now
  {
    r, w' := OneStall(w, deadline, a);
    RoundProgresses(w, deadline, r, w');
  }

  lemma OneRoundMore(w: World, deadline: int, r: Round, us: seq<World>, rs: seq<Round>)
    requires RunsUntil(us, deadline, rs) && w.s.now < deadline && Possible(w, r) && Pump(w, Some(deadline), r, us[0])
    ensures RunsUntil([w] + us, deadline, [r] + rs)
  {
    var ws, rounds := [w] + us, [r] + rs;
    forall i | 0 <= i < |rounds| ensures RoundAt(ws, deadline, rounds, i) {
      if i > 0 { assert RoundAt(us, deadline, rs, i - 1); }
    }
  }

  /** There are such states: a child sleeps until its dead kernel answers. */
  lemma SomeWorldStalls() returns (w: World)
    ensures SimInv(w) && CanStall(w)
  {
    var s := State(2, map[1 := Actor(true, None)], 0, 0, 0);
    w := World(s, map[1 := Kid(0, true, false, false)], 1, 0, -1, [Node(true, 0, false)], {}, {}, []);
    assert Running(w.s) == {};
    assert MayAsk(w, 1);
  }

  /** A dead kernel alone is not enough: while everybody sleeps and nobody asks a dead kernel, every round progresses. */
  lemma OthersDoNotStall(w: World, deadline: int)
    requires SimInv(w) && w.s.now < deadline && w.s.busy == 0
    requires forall a :: a in w.kids && Dead(w.nodes, w.kids[a].home) ==> !w.kids[a].asks
    ensures !MayStall(w, deadline)
  {
    StallsExactlyIf(w, deadline);
    var c := Crowd(w.s, w.kids);
    forall a ensures !MayAsk(w, a) {
      if a in c.kids {
        NobodyLively(c, c.kids[a].home);
        LeaversRun(c, c.kids[a].home, |w.nodes|);
      }
    }
  }
}
