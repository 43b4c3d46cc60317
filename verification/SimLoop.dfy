/** The main loop as an object. The environment of each round is an oracle `env`. */
module SimLoop {
  import opened Prelude
  import opened Sched
  import opened Sim

  /** What may happen around a round in the state at its start; the number tells rounds apart. */
  type Env = (World, nat) -> Round

  predicate NoneDies(r: Round) {
    forall i :: 0 <= i < |r.steps| ==> !r.steps[i].after.faulted
  }

  class MainLoop {
    const sched: Scheduler
    const cap: nat
    var rounds: nat
    var roundsAt: int
    var nodes: seq<Node>
    var kids: map<ActorId, Kid>
    var frames: set<Frame>
    var alerts: set<(nat, nat)>
    var log: seq<Handed>

    function View(): World
      reads this, sched
    {
      World(State(sched.nextId, sched.actors, sched.busy, sched.events, sched.now), kids, cap, rounds, roundsAt, nodes,
            frames, alerts, log)
    }

    ghost predicate Valid()
      reads this, sched
    {
      SimInv(View()) && sched.Valid()
    }

    constructor (sched: Scheduler, kids: map<ActorId, Kid>, cap: nat, nodes: seq<Node>)
      requires sched.Valid() && CrowdOk(Crowd(sched.St(), kids), |nodes|) && cap >= 1
      ensures Valid() && this.sched == sched && this.nodes == nodes && frames == {} && log == []
    {
      this.sched, this.kids, this.cap, this.nodes := sched, kids, cap, nodes;
      rounds, roundsAt, frames, alerts, log := 0, sched.now - 1, {}, {}, [];
    }

    /** The children run; this is where they got to. */
    method Become(c: Crowd)
      requires Inv(c.s)
      modifies sched, this`kids
      ensures sched.St() == c.s && sched.Valid() && kids == c.kids
    {
      var s := c.s;
      kids := c.kids;
      sched.nextId, sched.actors, sched.busy, sched.events, sched.now := s.nextId, s.actors, s.busy, s.events, s.now;
    }

    /** Hand over every frame that is due, each once. */
    method DeliverDue(now: int)
      modifies this`frames, this`log
      ensures frames == old(frames) - DueFrames(old(frames), now)
      ensures HandsOver(old(log), DueFrames(old(frames), now), now, log)
    {
      var todo := DueFrames(frames, now);
      ghost var done: set<Frame> := {};
      while todo != {}
        invariant todo + done == DueFrames(old(frames), now) && todo !! done
        invariant frames == old(frames) - done
        invariant HandsOver(old(log), done, now, log)
        decreases |todo|
      {
        var f :| f in todo;
        HandOne(old(log), done, now, log, f);
        MoveOne(todo, done, f);
        todo, done := todo - {f}, done + {f};
        frames, log := frames - {f}, log + [Handed(f, now)];
      }
    }

    /** `step_all`. */
    method StepNodes(now: int, r: Round) returns (did: bool)
      requires |r.steps| == |nodes| && Inv(r.after.s)
      modifies this, sched
      ensures did <==> Did(r.steps)
      ensures HandsOver(old(log), DueFrames(old(frames), now), now, log)
      ensures frames == old(frames) - DueFrames(old(frames), now) + r.sent
      ensures nodes == seq(|r.steps|, i requires 0 <= i < |r.steps| => r.steps[i].after)
      ensures rounds == old(rounds) && roundsAt == old(roundsAt)
      ensures sched.St() == r.after.s && sched.Valid() && kids == r.after.kids && alerts == r.alerts
    {
      DeliverDue(now);
      did := false;
      var i := 0;
      while i < |nodes|
        invariant i <= |nodes| == |r.steps|
        invariant did <==> exists k :: 0 <= k < i && r.steps[k].did
        invariant forall k :: 0 <= k < i ==> nodes[k] == r.steps[k].after
        invariant frames == old(frames) - DueFrames(old(frames), now) && rounds == old(rounds) && roundsAt == old(roundsAt)
        invariant HandsOver(old(log), DueFrames(old(frames), now), now, log)
      {
        nodes := nodes[i := r.steps[i].after];
        did := did || r.steps[i].did;
        i := i + 1;
      }
      frames, alerts := frames + r.sent, r.alerts;
      Become(r.after);
    }

    method FoldNodes(t: Option<int>, ghost ts: set<int>) returns (next: Option<int>)
      requires IsMin(ts, t)
      ensures IsMin(ts + NodeTimes(nodes), next)
    {
      next := t;
      ghost var seen := {};
      var i := 0;
      while i < |nodes|
        invariant i <= |nodes| && IsMin(ts + seen, next)
        invariant seen == set k | 0 <= k < i && !nodes[k].faulted :: nodes[k].nextDue
      {
        if !nodes[i].faulted {
          next := MinWith(ts + seen, next, nodes[i].nextDue);
          assert ts + seen + {nodes[i].nextDue} == ts + (seen + {nodes[i].nextDue});
          seen := seen + {nodes[i].nextDue};
        }
        i := i + 1;
      }
    }

    /** `next_event`: fold the minimum over the limit, the live kernels, the frames and the sleepers. */
    method NextTime(limit: Option<int>) returns (next: Option<int>)
      ensures IsMin(Times(limit, nodes, frames, sched.St()), next)
    {
      ghost var first := if limit.Some? then {limit.value} else {};
      next := FoldNodes(limit, first);
      next := FoldFrames(next, first + NodeTimes(nodes));
      var d := sched.NextActorDeadline();
      DeadlineIsMin(sched.St(), d);
      next := MinOf(first + NodeTimes(nodes) + FrameTimes(frames), next, SleeperTimes(sched.St()), d);
    }

    method FoldFrames(t: Option<int>, ghost ts: set<int>) returns (next: Option<int>)
      requires IsMin(ts, t)
      ensures IsMin(ts + FrameTimes(frames), next)
    {
      next := t;
      var todo := frames;
      ghost var done: set<Frame> := {};
      assert ts + FrameTimes({}) == ts;
      while todo != {}
        invariant todo + done == frames && todo !! done && IsMin(ts + FrameTimes(done), next)
        decreases |todo|
      {
        var f :| f in todo;
        FrameTimesMore(ts, done, f);
        MoveOne(todo, done, f);
        next := MinWith(ts + FrameTimes(done), next, f.due);
        todo, done := todo - {f}, done + {f};
      }
      assert done == frames;
    }

    /** Count a busy round. */
    method CountRound(now: int)
      requires Valid() && now == sched.now
      modifies this`rounds, this`roundsAt, sched
      ensures View() == Busy(old(View()))
    {
      if roundsAt == now {
        rounds := rounds + 1;
      } else {
        roundsAt, rounds := now, 1;
      }
      if rounds >= cap {
        sched.DoAdvanceTo(now + 1);
      }
    }

    method PumpVirtual(limit: Option<int>, r: Round)
      requires Valid() && Possible(View(), r)
      modifies this, sched
      ensures Valid() && Pump(old(View()), limit, r, View())
      ensures RoundEnds(View().(s := r.after.s), limit, r.quiet, Did(r.steps), old(rounds), old(roundsAt), View())
    {
      ghost var start := View();
      Become(r.idle);
      var now := sched.now;
      var did := StepNodes(now, r);
      ghost var m := View();
      assert StepAll(start, r, m);
      PumpIsExact(start, limit, r, m, Settle(m, limit, r.quiet, Did(r.steps)));
      RoundEnded(start, limit, r, m);
      if did || !r.quiet {
        StepAllKeeps(start, r, m);
        CountRound(now);
        return;
      }
      if sched.busy > 0 {
        return;
      }
      JumpAhead(limit);
    }

    /** Nothing to do in this millisecond: on to the next scheduled one. */
    method JumpAhead(limit: Option<int>)
      requires sched.Valid()
      modifies sched
      ensures var w := old(View()); View() == w.(s := AdvanceTo(w.s, Target(w, limit))) && sched.Valid()
    {
      ghost var w := View();
      var now := sched.now;
      var next := NextTime(limit);
      MinUnique(Times(limit, w.nodes, w.frames, w.s), next, NextEvent(Times(limit, w.nodes, w.frames, w.s)));
      var to := if next.Some? && next.value > now then next.value else now + 1;
      assert to == Target(w, limit);
      sched.DoAdvanceTo(to);
    }

    /** A round before the deadline. */
    method OneRound(deadline: int, r: Round)
      requires Valid() && Possible(View(), r) && sched.now < deadline
      modifies this, sched
      ensures Valid() && old(sched.now) <= sched.now <= deadline && Measure(View(), deadline) >= 0
      ensures NoneDies(r) && !AnyFaulted(old(nodes)) ==>
                !AnyFaulted(nodes) && Measure(View(), deadline) < Measure(old(View()), deadline)
    {
      ghost var w := View();
      PumpVirtual(Some(deadline), r);
      RoundProgresses(w, deadline, r, View());
      MeasureBounds(View(), deadline);
      if NoneDies(r) && !AnyFaulted(w.nodes) { StaysAlive(w, Some(deadline), r, View()); }
    }

    /** The rounds left before the deadline, at most. */
    ghost function Left(deadline: int): (n: int)
      requires Valid()
      reads this, sched
      ensures n >= 0
    {
      if sched.now <= deadline then (MeasureBounds(View(), deadline); Measure(View(), deadline)) else 0
    }

    /** Whatever round the environment has next. */
    method NextRound(deadline: int, env: Env, n: nat)
      requires Valid() && Realistic(env) && sched.now < deadline
      modifies this, sched
      ensures Valid() && old(sched.now) <= sched.now <= deadline
      ensures Kind(env) && !AnyFaulted(old(nodes)) ==> !AnyFaulted(nodes) && Left(deadline) < old(Left(deadline))
    {
      var r := env(View(), n);
      RealisticRound(env, View(), n);
      OneRound(deadline, r);
    }

    /** `run_until`: it ends with `pred` true, or exactly at the deadline, or with the wall-clock budget used up. `pred`
        is arbitrary; `n` counts the rounds, and `wall` is how many of them the budget lasts. Without a budget it ends
        because no kernel dies. */
    method RunUntil(deadline: int, env: Env, pred: (World, nat) -> bool, wall: Option<nat>) returns (end: RunEnd, n: nat)
      requires Valid()
      requires Realistic(env)
      requires wall.None? ==> !AnyFaulted(nodes) && Kind(env)
      modifies this, sched
      ensures Valid() && sched.now >= old(sched.now)
      ensures old(sched.now) <= deadline ==> sched.now <= deadline
      ensures match end
              case Held => pred(View(), n)
              case AtDeadline => sched.now >= deadline && !pred(View(), n)
              case OverBudget => wall == Some(n) && sched.now < deadline && !pred(View(), n)
      ensures wall.Some? ==> n <= wall.value
      ensures !AnyFaulted(old(nodes)) && Kind(env) ==>
                n <= if old(sched.now) <= deadline then (deadline - old(sched.now)) * (cap + 1) + cap else 0
    {
      n := 0;
      ghost var alive := !AnyFaulted(nodes) && Kind(env);
      ghost var most := Left(deadline);
      if sched.now <= deadline { MeasureBounds(View(), deadline); }
      while true
        invariant Valid() && (alive ==> !AnyFaulted(nodes)) && (wall.Some? ==> n <= wall.value)
        invariant sched.now >= old(sched.now) && (old(sched.now) <= deadline ==> sched.now <= deadline)
        invariant alive ==> n + Left(deadline) <= most
        decreases if wall.Some? then wall.value - n else Left(deadline)
      {
        if pred(View(), n) {
          return Held, n;
        }
        if sched.now >= deadline {
          return AtDeadline, n;
        }
        if wall == Some(n) {
          return OverBudget, n;
        }
        NextRound(deadline, env, n);
        n := n + 1;
      }
    }
  }

  datatype RunEnd = Held | AtDeadline | OverBudget

  /** An environment that only does what is possible. */
  ghost predicate Realistic(env: Env) {
    forall w, k :: SimInv(w) ==> Possible(w, env(w, k))
  }

  lemma RealisticRound(env: Env, w: World, k: nat)
    requires Realistic(env) && SimInv(w)
    ensures Possible(w, env(w, k))
    ensures Kind(env) && !AnyFaulted(w.nodes) ==> NoneDies(env(w, k))
  {
  }

  /** An environment in which no kernel dies. */
  ghost predicate Kind(env: Env) {
    forall w, k :: SimInv(w) && !AnyFaulted(w.nodes) ==> NoneDies(env(w, k))
  }

  /** The earlier of a minimum so far and `x`. */
  function MinWith(ghost ts: set<int>, t: Option<int>, x: int): (r: Option<int>)
    requires IsMin(ts, t)
    ensures IsMin(ts + {x}, r)
  {
    if t.Some? && t.value <= x then t else Some(x)
  }

  lemma MoveOne(todo: set<Frame>, done: set<Frame>, f: Frame)
    requires f in todo && todo !! done
    ensures (todo - {f}) + (done + {f}) == todo + done
    ensures (todo - {f}) !! (done + {f})
  {
  }

  lemma FrameTimesMore(ts: set<int>, fs: set<Frame>, f: Frame)
    ensures ts + FrameTimes(fs + {f}) == ts + FrameTimes(fs) + {f.due}
  {
    assert FrameTimes(fs + {f}) == FrameTimes(fs) + {f.due};
  }

  function MinOf(ghost ts: set<int>, t: Option<int>, ghost us: set<int>, u: Option<int>): (r: Option<int>)
    requires IsMin(ts, t) && IsMin(us, u)
    ensures IsMin(ts + us, r)
  {
    if t.None? then u else if u.None? || t.value <= u.value then t else u
  }

  lemma DeadlineIsMin(s: State, d: Option<int>)
    requires IsNextDeadline(s, d)
    ensures IsMin(SleeperTimes(s), d)
  {
    if d.Some? {
      var a :| a in s.actors && s.actors[a].blocked && s.actors[a].deadline == d;
      assert d.value in SleeperTimes(s);
    }
  }

  lemma MinUnique(ts: set<int>, t: Option<int>, u: Option<int>)
    requires IsMin(ts, t) && IsMin(ts, u)
    ensures t == u
  {
    if t.Some? && u.Some? { assert t.value <= u.value; }
  }

  /** What the round found after stepping everything is what it left, but for the clock and the count. */
  lemma RoundEnded(w: World, limit: Option<int>, r: Round, m: World)
    requires SimInv(w) && Possible(w, r) && StepAll(w, r, m)
    ensures var w' := Settle(m, limit, r.quiet, Did(r.steps));
      RoundEnds(w'.(s := r.after.s), limit, r.quiet, Did(r.steps), w.rounds, w.roundsAt, w')
  {
    StepAllKeeps(w, r, m);
    SettleMeaning(m, limit, r.quiet, Did(r.steps));
    var w' := Settle(m, limit, r.quiet, Did(r.steps));
    SameSchedule(m, w'.(s := r.after.s), limit, w'.s.now);
  }

  lemma SameSchedule(m: World, w: World, limit: Option<int>, to: int)
    requires w.s == m.s && w.nodes == m.nodes && w.frames == m.frames
    ensures LandsAt(m, limit, to) ==> LandsAt(w, limit, to)
  {
    assert forall t :: ScheduledAt(m, limit, t) <==> ScheduledAt(w, limit, t);
  }

  lemma StaysAlive(w: World, limit: Option<int>, r: Round, w': World)
    requires Pump(w, limit, r, w') && NoneDies(r)
    ensures !AnyFaulted(w'.nodes)
  {
  }
}
