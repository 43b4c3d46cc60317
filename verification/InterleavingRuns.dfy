/** What holds over whole runs of the interleaving model. */
module InterleavingRuns {
  import opened Prelude
  import opened Sched
  import opened Pipes
  import opened Interleaving

  /** The steps can be taken one after another from `w`. */
  predicate CanRun(w: World, steps: seq<Step>)
    decreases steps
  {
    steps == [] || (Enabled(w, steps[0]) && CanRun(Next(w, steps[0]), steps[1..]))
  }

  function After(w: World, steps: seq<Step>): World
    requires CanRun(w, steps)
    decreases steps
  {
    if steps == [] then w else After(Next(w, steps[0]), steps[1..])
  }

  lemma {:induction false} RunKeeps(w: World, steps: seq<Step>)
    requires WorldInv(w) && CanRun(w, steps)
    ensures WorldInv(After(w, steps))
    decreases steps
  {
    if steps != [] {
      StepKeeps(w, steps[0]);
      RunKeeps(Next(w, steps[0]), steps[1..]);
    }
  }

  lemma Reachable(epoch: int, steps: seq<Step>)
    requires CanRun(Start(epoch), steps)
    ensures WorldInv(After(Start(epoch), steps))
  {
    assert Running(Start(epoch).s) == {};
    RunKeeps(Start(epoch), steps);
  }

  /** The actor is inside `wait`, marked blocked. */
  predicate BlockedOn(w: World, a: ActorId, c: Cond) {
    a in w.pc && w.pc[a].Parked? && w.pc[a].c == c && a in w.s.actors && w.s.actors[a].blocked
  }

  /** No lost wake-up: whoever is blocked although its predicate holds is on the list of a waker that has
      changed the data and not yet called `wake`; when that waker calls it, the actor is runnable. */
  lemma NoLostWakeup(epoch: int, steps: seq<Step>, a: ActorId, c: Cond)
    requires CanRun(Start(epoch), steps)
    ensures var w := After(Start(epoch), steps);
      BlockedOn(w, a, c) ==>
        && ValidCond(w, a, c)
        && (Satisfied(w, a, c) ==> exists th :: th in w.waking && a in w.waking[th])
    ensures var w := After(Start(epoch), steps);
      forall th :: th in w.waking && w.holder.None? && BlockedOn(w, a, c) && a in w.waking[th] ==>
                     !BlockedOn(Next(w, WakeStep(th)), a, c)
  {
    Reachable(epoch, steps);
    var w := After(Start(epoch), steps);
    if BlockedOn(w, a, c) {
      assert ActorOk(w, a) && Safe(w, a);
      forall th | th in w.waking && w.holder.None? && a in w.waking[th]
        ensures !BlockedOn(Next(w, WakeStep(th)), a, c)
      {
        WakeAllEffect(w.s, w.waking[th]);
      }
    }
  }

  /** The main loop looks at `busy`: it holds the scheduler lock and is not itself waking anybody. */
  predicate MainLooks(w: World) { w.holder.None? && Main !in w.waking }

  predicate Asleep(w: World, a: ActorId) {
    a in w.pc && w.pc[a].Parked? && a in w.s.actors && w.s.actors[a].blocked
  }

  /** True quiescence: `busy` is 0 exactly when every actor is asleep, and then no wake-up is on its way,
      no actor's predicate holds and no deadline has passed. */
  lemma Quiescence(epoch: int, steps: seq<Step>)
    requires CanRun(Start(epoch), steps) && MainLooks(After(Start(epoch), steps))
    ensures var w := After(Start(epoch), steps);
      w.s.busy == 0 <==> forall a :: a in w.pc ==> Asleep(w, a)
    ensures var w := After(Start(epoch), steps);
      w.s.busy == 0 ==>
        && w.waking == map[]
        && forall a :: a in w.pc ==>
             && Asleep(w, a) && ValidCond(w, a, w.pc[a].c) && !Satisfied(w, a, w.pc[a].c)
             && !TimedOut(w, w.pc[a].dl)
  {
    Reachable(epoch, steps);
    var w := After(Start(epoch), steps);
    if forall a :: a in w.pc ==> Asleep(w, a) {
      forall a | a in w.s.actors ensures w.s.actors[a].blocked { assert Asleep(w, a); }
      assert Running(w.s) == {};
    }
    if w.s.busy == 0 { AllAsleep(w); }
  }

  lemma AllAsleep(w: World)
    requires WorldInv(w) && MainLooks(w) && w.s.busy == 0
    ensures w.waking == map[]
    ensures forall a :: a in w.pc ==>
      && Asleep(w, a) && ValidCond(w, a, w.pc[a].c) && !Satisfied(w, a, w.pc[a].c) && !TimedOut(w, w.pc[a].dl)
  {
    assert Running(w.s) == {};
    forall a | a in w.pc ensures Asleep(w, a) {
      assert ActorOk(w, a);
      assert a in w.s.actors && a !in Running(w.s);
    }
    forall th ensures th !in w.waking {
      if th.Child? && th.a in w.pc { assert Asleep(w, th.a); }
    }
    forall a | a in w.pc
      ensures ValidCond(w, a, w.pc[a].c) && !Satisfied(w, a, w.pc[a].c) && !TimedOut(w, w.pc[a].dl)
    {
      assert Asleep(w, a) && ActorOk(w, a) && Safe(w, a);
    }
  }

  // ------------------------------------------------------------ one wait

  /** What ends a wait for `c` until `dl`: the kill, data or end of file, room or no reader, the answer, or the time. */
  predicate Over(w: World, a: ActorId, c: Cond, dl: Option<int>)
    requires ValidCond(w, a, c)
  {
    || a in w.killed
    || (c.CRead? && (w.pipes[c.p].buf != [] || w.pipes[c.p].writers == 0))
    || (c.CWrite? && (|w.pipes[c.p].buf| < w.pipes[c.p].cap || w.pipes[c.p].readers == 0))
    || (c.CIpc? && w.slots[c.r].answered)
    || (dl.Some? && dl.value <= w.s.now)
  }

  predicate Awake(w: World, a: ActorId) { a in w.s.actors && !w.s.actors[a].blocked }

  predicate Runs(w: World, a: ActorId) { a in w.pc && w.pc[a].Run? && Awake(w, a) }

  /** Asleep until `dl`, and among the waiters of the pipe waited for. */
  predicate SleepsUntil(w: World, a: ActorId, c: Cond, dl: Option<int>) {
    && BlockedOn(w, a, c) && w.s.actors[a].deadline == dl
    && (c.CRead? ==> c.p < |w.pipes| && a in w.pipes[c.p].waiters)
    && (c.CWrite? ==> c.p < |w.pipes| && a in w.pipes[c.p].waiters)
  }

  lemma ThreeSteps(w: World, x: Step, y: Step, z: Step)
    requires Enabled(w, x) && Enabled(Next(w, x), y) && Enabled(Next(Next(w, x), y), z)
    ensures CanRun(w, [x, y, z]) && After(w, [x, y, z]) == Next(Next(Next(w, x), y), z)
  {
    TwoSteps(Next(w, x), y, z);
    assert [x, y, z][1..] == [y, z];
  }

  lemma TwoSteps(w: World, x: Step, y: Step)
    requires Enabled(w, x) && Enabled(Next(w, x), y)
    ensures CanRun(w, [x, y]) && After(w, [x, y]) == Next(Next(w, x), y)
  {
    OneStep(Next(w, x), y);
    assert [x, y][1..] == [y];
  }

  lemma OneStep(w: World, x: Step)
    requires Enabled(w, x)
    ensures CanRun(w, [x]) && After(w, [x]) == Next(w, x)
  {
    assert [x][1..] == [];
  }

  /** Having looked in vain, the actor goes to sleep. */
  lemma LooksInVain(x: World, a: ActorId, c: Cond, dl: Option<int>)
    requires a in x.pc && x.pc[a] == Test(c, dl) && ValidCond(x, a, c) && a in x.s.actors
    requires a in x.killed || !Over(x, a, c, dl)
    ensures a !in x.killed ==> Next(x, Look(a)) == Enlist(x, a, c, dl) && Enabled(Next(x, Look(a)), Mark(a))
    ensures a !in x.killed ==>
              var w' := Next(Next(x, Look(a)), Mark(a));
              SleepsUntil(w', a, c, dl) && w'.s == Block(x.s, a, dl) && w'.holder.None?
  {
  }

  /** Whoever waits for what is not there falls asleep, until its deadline, and is no longer busy. */
  lemma FallsAsleep(w: World, a: ActorId, c: Cond, dl: Option<int>)
    requires WorldInv(w) && Acting(w, Child(a)) && w.pc[a].Run? && w.holder.None? && ValidCond(w, a, c) && !Over(w, a, c, dl)
    ensures CanRun(w, [Enter(a, c, dl), Look(a), Mark(a)])
    ensures var w' := After(w, [Enter(a, c, dl), Look(a), Mark(a)]);
      SleepsUntil(w', a, c, dl) && w'.s.busy == w.s.busy - 1 && w'.holder.None? && w'.waking == w.waking
  {
    assert ActorOk(w, a);
    LooksInVain(Next(w, Enter(a, c, dl)), a, c, dl);
    ThreeSteps(w, Enter(a, c, dl), Look(a), Mark(a));
    BlockInv(w.s, a, dl);
    RunningMeans(w.s, a);
  }

  /** Whoever waits for what is there does not sleep. */
  lemma DoesNotWait(w: World, a: ActorId, c: Cond, dl: Option<int>)
    requires WorldInv(w) && Acting(w, Child(a)) && w.pc[a].Run? && w.holder.None? && ValidCond(w, a, c) && Over(w, a, c, dl)
    ensures var steps := if a in w.killed then [Enter(a, c, dl)] else [Enter(a, c, dl), Look(a)];
      CanRun(w, steps) && Runs(After(w, steps), a) && After(w, steps).s == w.s
  {
    assert ActorOk(w, a);
    if a in w.killed {
      OneStep(w, Enter(a, c, dl));
    } else {
      TwoSteps(w, Enter(a, c, dl), Look(a));
    }
  }

  /** A sleeper whose wait is over returns when it looks again. */
  lemma WaitEnds(w: World, a: ActorId)
    requires WorldInv(w) && a in w.pc && w.pc[a].Parked? && w.holder.None? && ValidCond(w, a, w.pc[a].c)
    requires Over(w, a, w.pc[a].c, w.pc[a].dl)
    ensures var steps := if a in w.killed then [Recheck(a)] else [Recheck(a), Look(a)];
      CanRun(w, steps) && Runs(After(w, steps), a)
  {
    UnblockInv(w.s, a);
    if a in w.killed {
      OneStep(w, Recheck(a));
    } else {
      TwoSteps(w, Recheck(a), Look(a));
    }
  }

  /** Otherwise it goes on sleeping. */
  lemma WaitGoesOn(w: World, a: ActorId)
    requires WorldInv(w) && a in w.pc && w.pc[a].Parked? && w.holder.None? && ValidCond(w, a, w.pc[a].c)
    requires !Over(w, a, w.pc[a].c, w.pc[a].dl)
    ensures CanRun(w, [Recheck(a), Look(a), Mark(a)])
    ensures SleepsUntil(After(w, [Recheck(a), Look(a), Mark(a)]), a, w.pc[a].c, w.pc[a].dl)
  {
    LooksInVain(Next(w, Recheck(a)), a, w.pc[a].c, w.pc[a].dl);
    ThreeSteps(w, Recheck(a), Look(a), Mark(a));
  }

  /** Kills and answers reach their sleeper with the wake-up that follows. */
  lemma KillReaches(w: World, a: ActorId)
    requires WorldInv(w) && Enabled(w, Kill(Main, a)) && a in w.pc && !w.pc[a].Gone? && w.holder.None?
    ensures CanRun(w, [Kill(Main, a), WakeStep(Main)])
    ensures var w' := After(w, [Kill(Main, a), WakeStep(Main)]); a in w'.killed && Awake(w', a)
  {
    TwoSteps(w, Kill(Main, a), WakeStep(Main));
    WakeAllEffect(w.s, [a]);
  }

  lemma AnswerReaches(w: World, r: nat)
    requires WorldInv(w) && Enabled(w, Answer(r)) && w.holder.None?
    ensures CanRun(w, [Answer(r), WakeStep(Main)])
    ensures var a, w' := w.slots[r].actor, After(w, [Answer(r), WakeStep(Main)]);
      r in w'.slots && w'.slots[r] == Slot(a, true) && (a in w.pc ==> Awake(w', a))
  {
    TwoSteps(w, Answer(r), WakeStep(Main));
    WakeAllEffect(w.s, [w.slots[r].actor]);
  }

  lemma DeadlineWakes(w: World, a: ActorId, t: int)
    requires WorldInv(w) && Enabled(w, Advance(t)) && a in w.pc && w.pc[a].Parked? && w.pc[a].dl.Some? && t >= w.pc[a].dl.value
    ensures var w' := Next(w, Advance(t)); Awake(w', a) && w'.s.now >= t && w' == w.(s := w'.s)
  {
    assert ActorOk(w, a);
    AdvanceInv(w.s, t);
  }

  /** A deadline reaches its sleeper: once the clock is there, the next look ends the wait. */
  lemma DeadlineReaches(w: World, a: ActorId, t: int)
    requires WorldInv(w) && Enabled(w, Advance(t)) && a in w.pc && w.pc[a].Parked? && w.pc[a].dl.Some? && t >= w.pc[a].dl.value
    requires a !in w.killed && ValidCond(w, a, w.pc[a].c)
    ensures CanRun(w, [Advance(t), Recheck(a), Look(a)])
    ensures Runs(After(w, [Advance(t), Recheck(a), Look(a)]), a)
  {
    DeadlineWakes(w, a, t);
    ThreeSteps(w, Advance(t), Recheck(a), Look(a));
  }

  /** The clock moves to the time given, never back, and wakes nobody before his time. */
  lemma ClockMoves(w: World, t: int, a: ActorId)
    requires WorldInv(w) && Enabled(w, Advance(t))
    ensures var w' := Next(w, Advance(t));
      && w'.s.now == (if t < w.s.now then w.s.now else t)
      && (a in w.s.actors && w.s.actors[a].blocked && (w.s.actors[a].deadline.None? || t < w.s.actors[a].deadline.value) ==>
            a in w'.s.actors && w'.s.actors[a] == w.s.actors[a])
  {
    AdvanceInv(w.s, t);
  }

  /** A new request is the caller's, and open until it is answered. */
  lemma AskOpens(w: World, a: ActorId, r: nat)
    requires WorldInv(w) && Enabled(w, Ask(a, r))
    ensures r !in w.slots && Next(w, Ask(a, r)).slots == w.slots[r := Slot(a, false)]
  {
  }

  /** A child starts running and counted, with its terminal. */
  lemma SpawnStarts(w: World, p: nat)
    requires WorldInv(w) && Enabled(w, Spawn(p))
    ensures var w', a := Next(w, Spawn(p)), w.s.nextId;
      a !in w.pc && Runs(w', a) && a in w'.out && w'.out[a] == p && w'.s.busy == w.s.busy + 1
  {
    RegisterInv(w.s);
  }

  /** And when it leaves nobody counts it any more. */
  lemma LeaveEnds(w: World, a: ActorId)
    requires WorldInv(w) && Enabled(w, Leave(a))
    ensures var w' := Next(w, Leave(a)); a !in w'.pc && a !in w'.s.actors && w'.s.busy == w.s.busy - 1
  {
    assert ActorOk(w, a);
    ExitInv(w.s, a);
    RunningMeans(w.s, a);
  }

  /** A child that exits goes no other way than out; the step after that it may leave. */
  lemma ExitLeaves(w: World, a: ActorId)
    requires WorldInv(w) && Enabled(w, SetExited(a)) && w.holder.None?
    ensures Next(w, SetExited(a)).pc == w.pc[a := Gone]
    ensures CanRun(w, [SetExited(a), Leave(a)]) && a !in After(w, [SetExited(a), Leave(a)]).pc
  {
    TwoSteps(w, SetExited(a), Leave(a));
  }

  /** An entry that is dropped stays dropped. */
  lemma RemoveDrops(w: World, a: ActorId)
    requires WorldInv(w) && Enabled(w, Remove(a))
    ensures Next(w, Remove(a)).removed == w.removed + {a} && a in w.reported
  {
  }

  /** An exit is reported exactly if the child is past its exit and its output has been read. */
  lemma ExitIsReported(w: World, a: ActorId)
    requires WorldInv(w) && Enabled(w, TryWait(a))
    ensures a in Next(w, TryWait(a)).reported <==>
              a in w.reported || ((a !in w.pc || w.pc[a].Gone?) && w.pipes[w.out[a]].buf == [])
  {
  }

  /** There is a reachable state in which an actor sleeps and nobody is busy. */
  lemma SomebodySleeps(epoch: int) returns (steps: seq<Step>)
    ensures CanRun(Start(epoch), steps)
    ensures var w := After(Start(epoch), steps); MainLooks(w) && w.s.busy == 0 && 1 in w.pc && BlockedOn(w, 1, CSleep)
  {
    var s0 := Start(epoch);
    var s1 := Next(s0, NewPipe(1));
    var s2 := Next(s1, Spawn(0));
    TwoSteps(s0, NewPipe(1), Spawn(0));
    Reachable(epoch, [NewPipe(1), Spawn(0)]);
    FallsAsleep(s2, 1, CSleep, None);
    var later := [Enter(1, CSleep, None), Look(1), Mark(1)];
    RunJoins(s0, [NewPipe(1), Spawn(0)], later);
    steps := [NewPipe(1), Spawn(0)] + later;
  }

  lemma {:induction false} RunJoins(w: World, a: seq<Step>, b: seq<Step>)
    requires CanRun(w, a) && CanRun(After(w, a), b)
    ensures CanRun(w, a + b) && After(w, a + b) == After(After(w, a), b)
    decreases a
  {
    if a == [] {
      assert a + b == b;
    } else {
      RunJoins(Next(w, a[0]), a[1..], b);
      assert (a + b)[1..] == a[1..] + b && (a + b)[0] == a[0];
    }
  }

  // ------------------------------------------------------------ pipes and clock along a run

  /** What never goes backwards. */
  predicate Grows(w: World, w': World) {
    && w.s.now <= w'.s.now
    && |w.pipes| <= |w'.pipes|
    && (forall p :: 0 <= p < |w.pipes| ==> w.pipes[p].taken <= w'.pipes[p].taken && w.pipes[p].accepted <= w'.pipes[p].accepted)
    && w.reported <= w'.reported
    && w.out.Keys <= w'.out.Keys
    && (forall a :: a in w.out ==> w'.out[a] == w.out[a] && (Zombie(w, a) ==> Zombie(w', a)))
  }

  /** Most steps leave what was written and read, and who is finished, alone. */
  predicate Quiet(w: World, w': World) {
    && w'.s.now >= w.s.now
    && |w.pipes| == |w'.pipes|
    && (forall p :: 0 <= p < |w.pipes| ==> w.pipes[p].taken == w'.pipes[p].taken && w.pipes[p].accepted == w'.pipes[p].accepted)
    && w.reported <= w'.reported
    && w'.out == w.out
    && forall a :: a in w'.pc && !w'.pc[a].Gone? ==> a in w.pc && !w.pc[a].Gone?
  }

  predicate IsQuiet(st: Step) { !st.Use? && !st.NewPipe? && !st.Spawn? }

  predicate IsWait(st: Step) { st.Enter? || st.Recheck? || st.Mark? }

  lemma EnlistQuiet(w: World, a: ActorId, c: Cond, dl: Option<int>)
    requires a in w.pc && !w.pc[a].Gone? && ValidCond(w, a, c)
    ensures Quiet(w, Enlist(w, a, c, dl))
  {
  }

  lemma WaitQuiet(w: World, st: Step)
    requires WorldInv(w) && Enabled(w, st) && IsWait(st)
    ensures Quiet(w, Next(w, st))
  {
  }

  lemma LookQuiet(w: World, a: ActorId)
    requires WorldInv(w) && Enabled(w, Look(a))
    ensures Quiet(w, Next(w, Look(a)))
  {
    EnlistQuiet(w, a, w.pc[a].c, w.pc[a].dl);
  }

  lemma StepQuiet(w: World, st: Step)
    requires WorldInv(w) && Enabled(w, st) && IsQuiet(st)
    ensures Quiet(w, Next(w, st))
  {
    if IsWait(st) {
      WaitQuiet(w, st);
    } else if st.Look? {
      LookQuiet(w, st.a);
    } else if st.WakeStep? {
      WakeAllEffect(w.s, w.waking[st.th]);
    }
  }

  lemma QuietGrows(w: World, w': World)
    requires Quiet(w, w')
    ensures Grows(w, w')
  {
  }

  lemma UseGrows(w: World, st: Step)
    requires WorldInv(w) && Enabled(w, st) && st.Use?
    ensures Grows(w, Next(w, st))
  {
    ApplyKeeps(w.pipes[st.p], st.op);
  }

  lemma NewGrows(w: World, st: Step)
    requires WorldInv(w) && Enabled(w, st) && (st.NewPipe? || st.Spawn?)
    ensures Grows(w, Next(w, st))
  {
  }

  lemma StepGrows(w: World, st: Step)
    requires WorldInv(w) && Enabled(w, st)
    ensures Grows(w, Next(w, st))
  {
    if IsQuiet(st) {
      StepQuiet(w, st);
      QuietGrows(w, Next(w, st));
    } else if st.Use? {
      UseGrows(w, st);
    } else {
      NewGrows(w, st);
    }
  }

  lemma {:induction false} RunGrows(w: World, steps: seq<Step>)
    requires WorldInv(w) && CanRun(w, steps)
    ensures Grows(w, After(w, steps))
    decreases steps
  {
    if steps != [] {
      StepKeeps(w, steps[0]);
      StepGrows(w, steps[0]);
      RunGrows(Next(w, steps[0]), steps[1..]);
    }
  }

  /** Every pipe is a bounded FIFO in every reachable state, and its history and the clock only move forward. */
  lemma PipesAreFifos(epoch: int, before: seq<Step>, later: seq<Step>, p: nat)
    requires CanRun(Start(epoch), before) && CanRun(After(Start(epoch), before), later)
    ensures var w, w' := After(Start(epoch), before), After(After(Start(epoch), before), later);
      && w.s.now <= w'.s.now
      && (p < |w.pipes| ==>
            && p < |w'.pipes| && PipeOk(w.pipes[p]) && PipeOk(w'.pipes[p])
            && w.pipes[p].taken <= w'.pipes[p].taken && w.pipes[p].accepted <= w'.pipes[p].accepted)
  {
    Reachable(epoch, before);
    RunKeeps(After(Start(epoch), before), later);
    RunGrows(After(Start(epoch), before), later);
  }

  // ------------------------------------------------------------ no output is cut off

  lemma {:induction false} NoneOfCall(s: seq<Octet>, call: nat)
    requires forall i :: 0 <= i < |s| ==> s[i].call != call
    ensures By(s, call) == []
  {
    if s != [] { NoneOfCall(s[1..], call); }
  }

  /** An operation on behalf of somebody else adds no byte of `a`. */
  lemma OthersAdd(p: Pipe, op: Op, a: nat)
    requires op.OpWrite? ==> op.call != a
    ensures By(Apply(p, op).p.accepted, a) == By(p.accepted, a)
  {
    if op.OpWrite? {
      var added := Tag(op.call, op.data[..Room(p, |op.data|)]);
      ByConcat(p.accepted, added, a);
      NoneOfCall(added, a);
      assert By(p.accepted, a) + [] == By(p.accepted, a);
    }
  }

  /** The bytes of child `a` that its terminal pipe ever accepted. */
  function Written(w: World, a: ActorId): seq<byte>
    requires a in w.out && w.out[a] < |w.pipes|
  {
    By(w.pipes[w.out[a]].accepted, a)
  }

  lemma StepWritesNothing(w: World, st: Step, a: ActorId)
    requires WorldInv(w) && Enabled(w, st) && a in w.out && Zombie(w, a)
    ensures var w' := Next(w, st); a in w'.out && w'.out[a] < |w'.pipes| && Written(w', a) == Written(w, a)
  {
    if IsQuiet(st) {
      StepQuiet(w, st);
    } else if st.Use? {
      OthersAdd(w.pipes[st.p], st.op, a);
    }
  }

  lemma {:induction false} ZombieWritesNothing(w: World, steps: seq<Step>, a: ActorId)
    requires WorldInv(w) && CanRun(w, steps) && a in w.out && Zombie(w, a)
    ensures var w' := After(w, steps); a in w'.out && w'.out[a] < |w'.pipes| && Written(w', a) == Written(w, a)
    decreases steps
  {
    if steps != [] {
      StepWritesNothing(w, steps[0], a);
      StepKeeps(w, steps[0]);
      StepGrows(w, steps[0]);
      ZombieWritesNothing(Next(w, steps[0]), steps[1..], a);
    }
  }

  /** Once `try_wait` has reported an exit, every byte that child ever writes to its terminal pipe has been
      read, now and for ever; and an entry is only dropped after such a report. */
  lemma NoOutputCutOff(epoch: int, before: seq<Step>, later: seq<Step>, a: ActorId)
    requires CanRun(Start(epoch), before) && CanRun(After(Start(epoch), before), later)
    ensures var w, w' := After(Start(epoch), before), After(After(Start(epoch), before), later);
      && w.removed <= w.reported
      && (a in w.reported ==>
            && a in w.out && w.out[a] < |w.pipes| && a in w'.out && w'.out[a] < |w'.pipes|
            && By(w.pipes[w.out[a]].taken, a) == Written(w', a))
  {
    Reachable(epoch, before);
    var w := After(Start(epoch), before);
    if a in w.reported {
      assert Drained(w, a);
      var p := w.pipes[w.out[a]];
      ByConcat(p.taken, p.buf, a);
      NoneOfCall(p.buf, a);
      assert By(p.taken, a) + [] == By(p.taken, a);
      ZombieWritesNothing(w, later, a);
    }
  }
}
