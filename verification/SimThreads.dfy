/** What the main loop's model says of the children in one round, derived from the interleaving of their threads. */
module SimThreads {
  import opened Prelude
  import opened Sched
  import opened Pipes
  import opened Interleaving
  import opened InterleavingRuns
  import Sim

  /** The computer of each child and of each pipe; pipes do not cross computers. */
  datatype Place = Place(child: ActorId -> nat, pipe: nat -> nat)

  // ------------------------------------------------------------ how the threads are coded

  /** The child has put a request and has no answer yet. */
  ghost predicate Pending(w: World, a: ActorId) {
    a in w.pc && !Ended(w, a) && exists r :: Unanswered(w, r, a)
  }

  predicate Unanswered(w: World, r: nat, a: ActorId) { r in w.slots && w.slots[r] == Slot(a, false) }

  /** Killed, or past its last host call. */
  predicate Ended(w: World, a: ActorId) { a in w.killed || (a in w.pc && w.pc[a].Gone?) }

  predicate CondAt(m: Place, a: ActorId, c: Cond) {
    match c
    case CRead(p) => m.pipe(p) == m.child(a)
    case CWrite(p) => m.pipe(p) == m.child(a)
    case _ => true
  }

  /** A child uses the pipes of its computer; only kernels kill; and after a request a child that is not killed does
      nothing but wait for the answer, without a deadline. */
  ghost predicate AsCoded(w: World, st: Step, m: Place) {
    match st
    case Use(th, p, _) => th.Child? ==> m.pipe(p) == m.child(th.a) && !Pending(w, th.a)
    case Kill(th, _) => th.Main?
    case Ask(a, _) => !Pending(w, a)
    case Enter(a, c, dl) => CondAt(m, a, c) && (Pending(w, a) ==> c.CIpc? && dl.None?)
    case SetExited(a) => !Pending(w, a)
    case _ => true
  }

  predicate ByChild(st: Step) {
    match st
    case Use(th, _, _) => th.Child?
    case WakeStep(th) => th.Child?
    case Ask(_, _) => true
    case Enter(_, _, _) => true
    case Recheck(_) => true
    case Look(_) => true
    case Mark(_) => true
    case SetExited(_) => true
    case Leave(_) => true
    case _ => false
  }

  predicate Waits(pc: Pc) { pc.Test? || pc.Commit? || pc.Parked? }

  predicate AtHome(w: World, m: Place, a: ActorId) {
    a in w.pc && Waits(w.pc[a]) ==> CondAt(m, a, w.pc[a].c)
  }

  ghost predicate Patient(w: World, a: ActorId) {
    a in w.pc && Waits(w.pc[a]) && Pending(w, a) ==> w.pc[a].dl.None?
  }

  /** Asleep or about to be. */
  predicate Settles(w: World, a: ActorId) {
    a in w.pc && a in w.s.actors && (w.pc[a].Test? || w.pc[a].Commit? || w.s.actors[a].blocked)
  }

  /** Whoever is killed in its sleep is woken by the killer. */
  predicate KillWakes(w: World, a: ActorId) {
    a in w.killed && Settles(w, a) ==> Main in w.waking && a in w.waking[Main]
  }

  predicate WaitersAt(w: World, m: Place, p: nat)
    requires p < |w.pipes|
  {
    forall a :: a in w.pipes[p].waiters ==> m.child(a) == m.pipe(p)
  }

  predicate WakesAt(w: World, m: Place, x: ActorId)
    requires Child(x) in w.waking
  {
    forall a :: a in w.waking[Child(x)] ==> m.child(a) == m.child(x)
  }

  ghost predicate Coded(w: World, m: Place) {
    && (forall a :: a in w.pc ==> AtHome(w, m, a) && Patient(w, a) && KillWakes(w, a))
    && (forall p :: 0 <= p < |w.pipes| ==> WaitersAt(w, m, p))
    && (forall x :: Child(x) in w.waking ==> WakesAt(w, m, x))
  }

  lemma WokenWaited(p: Pipe, op: Op)
    ensures forall a :: a in Apply(p, op).woken ==> a in p.waiters
    ensures forall a :: a in Apply(p, op).p.waiters ==> a in p.waiters
  {
  }

  lemma PipesCoded(w: World, st: Step, m: Place, p: nat)
    requires Enabled(w, st) && p < |Next(w, st).pipes| && (p < |w.pipes| ==> WaitersAt(w, m, p))
    requires st.Look? ==> AtHome(w, m, st.a)
    ensures WaitersAt(Next(w, st), m, p)
  {
    if st.Use? {
      WokenWaited(w.pipes[st.p], st.op);
    } else if st.Look? {
      LookCoded(w, st.a, m, p);
    }
  }

  lemma LookCoded(w: World, a: ActorId, m: Place, p: nat)
    requires Enabled(w, Look(a)) && p < |w.pipes| && WaitersAt(w, m, p) && AtHome(w, m, a)
    ensures WaitersAt(Next(w, Look(a)), m, p)
  {
  }

  lemma WakesCoded(w: World, st: Step, m: Place, x: ActorId)
    requires Enabled(w, st) && Child(x) in Next(w, st).waking && (Child(x) in w.waking ==> WakesAt(w, m, x))
    requires st.Kill? ==> st.th.Main?
    requires st.Use? ==> WaitersAt(w, m, st.p) && (st.th.Child? ==> m.pipe(st.p) == m.child(st.th.a))
    ensures WakesAt(Next(w, st), m, x)
  {
    if st.Use? { WokenWaited(w.pipes[st.p], st.op); }
  }

  /** Only an own request makes a child pending. */
  lemma PendingFrom(w: World, st: Step, a: ActorId)
    requires Enabled(w, st)
    ensures Pending(Next(w, st), a) ==> Pending(w, a) || (st.Ask? && st.a == a) || (st.Spawn? && a == w.s.nextId)
  {
    var w' := Next(w, st);
    if Pending(w', a) {
      var r :| Unanswered(w', r, a);
      assert Unanswered(w, r, a) || st.Ask?;
    }
  }

  lemma HomeCoded(w: World, st: Step, m: Place, a: ActorId)
    requires Enabled(w, st) && AtHome(w, m, a) && (st.Enter? ==> CondAt(m, st.a, st.c))
    ensures AtHome(Next(w, st), m, a)
  {
  }

  lemma PatienceCoded(w: World, st: Step, a: ActorId)
    requires Enabled(w, st) && Patient(w, a) && (st.Enter? && Pending(w, st.a) ==> st.dl.None?)
    ensures Patient(Next(w, st), a)
  {
    PendingFrom(w, st, a);
  }

  /** While the main thread wakes nobody, the only new victims are those it wakes next. */
  lemma KillCoded(w: World, st: Step, a: ActorId)
    requires Enabled(w, st) && KillWakes(w, a) && (a in w.pc ==> a in w.s.actors && ActorOk(w, a))
    requires st.Kill? ==> st.th.Main?
    ensures KillWakes(Next(w, st), a)
  {
    if st.WakeStep? {
      KillCodedWake(w, st.th, a);
    } else if st.Use? || st.Kill? || st.Answer? {
      KillCodedOwe(w, st, a);
    } else {
      KillCodedElse(w, st, a);
    }
  }

  lemma KillCodedWake(w: World, th: Thread, a: ActorId)
    requires Enabled(w, WakeStep(th)) && KillWakes(w, a) && (a in w.pc ==> a in w.s.actors && ActorOk(w, a))
    ensures KillWakes(Next(w, WakeStep(th)), a)
  {
    WakeAllEffect(w.s, w.waking[th]);
  }

  lemma KillCodedOwe(w: World, st: Step, a: ActorId)
    requires Enabled(w, st) && KillWakes(w, a) && (a in w.pc ==> a in w.s.actors && ActorOk(w, a))
    requires (st.Use? || st.Kill? || st.Answer?) && (st.Kill? ==> st.th.Main?)
    ensures KillWakes(Next(w, st), a)
  {
  }

  lemma KillCodedElse(w: World, st: Step, a: ActorId)
    requires Enabled(w, st) && KillWakes(w, a) && (a in w.pc ==> a in w.s.actors && ActorOk(w, a))
    requires !st.WakeStep? && !st.Use? && !st.Kill? && !st.Answer?
    ensures KillWakes(Next(w, st), a)
  {
  }

  lemma StepCoded(w: World, st: Step, m: Place)
    requires WorldInv(w) && Coded(w, m) && Enabled(w, st) && AsCoded(w, st, m)
    ensures Coded(Next(w, st), m)
  {
    var w' := Next(w, st);
    forall a | a in w'.pc ensures AtHome(w', m, a) && Patient(w', a) && KillWakes(w', a) {
      HomeCoded(w, st, m, a);
      PatienceCoded(w, st, a);
      if a in w.pc { assert ActorOk(w, a); }
      KillCoded(w, st, a);
    }
    forall p | 0 <= p < |w'.pipes| ensures WaitersAt(w', m, p) { PipesCoded(w, st, m, p); }
    forall x | Child(x) in w'.waking ensures WakesAt(w', m, x) { WakesCoded(w, st, m, x); }
  }

  ghost predicate AllCoded(w: World, steps: seq<Step>, m: Place)
    requires CanRun(w, steps)
    decreases steps
  {
    steps == [] || (AsCoded(w, steps[0], m) && AllCoded(Next(w, steps[0]), steps[1..], m))
  }

  lemma {:induction false} RunCoded(w: World, steps: seq<Step>, m: Place)
    requires WorldInv(w) && Coded(w, m) && CanRun(w, steps) && AllCoded(w, steps, m)
    ensures Coded(After(w, steps), m)
    decreases steps
  {
    if steps != [] {
      StepKeeps(w, steps[0]);
      StepCoded(w, steps[0], m);
      RunCoded(Next(w, steps[0]), steps[1..], m);
    }
  }

  // ------------------------------------------------------------ a computer whose children all sleep

  /** All children of computer `h` sleep, each for a reason that still holds, and no sibling is about to wake one. */
  ghost predicate Rests(w: World, m: Place, h: nat) {
    && (forall a :: a in w.pc && m.child(a) == h ==> SleepsOn(w, a))
    && (forall x :: Child(x) in w.waking ==> m.child(x) != h)
  }

  ghost predicate SleepsOn(w: World, a: ActorId)
    requires a in w.pc
  {
    && InterleavingRuns.Asleep(w, a) && w.s.actors[a].deadline == w.pc[a].dl
    && ValidCond(w, a, w.pc[a].c) && !Satisfied(w, a, w.pc[a].c) && !TimedOut(w, w.pc[a].dl)
  }

  lemma SleepersRest(w: World, m: Place, h: nat)
    requires WorldInv(w) && Coded(w, m) && MainLooks(w)
    requires forall a :: a in w.pc && m.child(a) == h ==> a in w.s.actors && w.s.actors[a].blocked
    ensures Rests(w, m, h)
  {
    forall x | Child(x) in w.waking ensures m.child(x) != h { WakersRun(w, x); }
    forall a | a in w.pc && m.child(a) == h ensures SleepsOn(w, a) {
      assert ActorOk(w, a) && Safe(w, a);
      NobodyWakes(w, m, a);
    }
  }

  lemma NobodyWakes(w: World, m: Place, a: ActorId)
    requires Coded(w, m) && MainLooks(w) && forall x :: Child(x) in w.waking ==> m.child(x) != m.child(a)
    ensures !Interleaving.Woken(w, a)
  {
    forall th | th in w.waking ensures a !in w.waking[th] {
      if th.Child? { assert WakesAt(w, m, th.a); }
    }
  }

  lemma WakersRun(w: World, x: ActorId)
    requires WorldInv(w) && Child(x) in w.waking
    ensures x in w.pc && x in w.s.actors && !w.s.actors[x].blocked
  {
    assert Child(x) in w.waking && Child(x).Child?;
    assert x in w.pc && ActorOk(w, x);
  }

  /** The same wait, wherever in its loop. */
  predicate SameWait(pc: Pc, was: Pc) {
    was.Parked? && (pc == Test(was.c, was.dl) || pc == Commit(was.c, was.dl) || pc == was)
  }

  predicate StillSleeps(w0: World, w: World, a: ActorId) {
    && a in w0.pc && a in w.pc && a in w0.s.actors && a in w.s.actors
    && w.s.actors[a] == w0.s.actors[a] && SameWait(w.pc[a], w0.pc[a])
  }

  predicate SamePipe(w0: World, w: World, p: nat) {
    p < |w0.pipes| && p < |w.pipes| && w.pipes[p].(waiters := []) == w0.pipes[p].(waiters := [])
  }

  /** Nothing that the sleepers of computer `h` wait for has changed since `w0`. */
  ghost predicate StillRests(w0: World, w: World, m: Place, h: nat) {
    && w.s.now == w0.s.now && w.killed == w0.killed
    && (forall a :: a in w0.pc && m.child(a) == h ==> StillSleeps(w0, w, a))
    && (forall a :: a in w.pc ==> a in w0.pc)
    && (forall p :: 0 <= p < |w0.pipes| && m.pipe(p) == h ==> SamePipe(w0, w, p))
    && (forall r :: r in w0.slots ==> r in w.slots && w.slots[r] == w0.slots[r])
    && (forall r :: r in w.slots && r !in w0.slots ==> m.child(w.slots[r].actor) != h)
    && (forall x :: Child(x) in w.waking ==> m.child(x) != h)
  }

  lemma RestsStill(w: World, m: Place, h: nat)
    requires Rests(w, m, h)
    ensures StillRests(w, w, m, h)
  {
  }

  /** Whoever acts is a child of another computer. */
  lemma ActsElsewhere(w0: World, w: World, m: Place, h: nat, x: ActorId)
    requires StillRests(w0, w, m, h) && x in w.pc && (w.pc[x].Run? || w.pc[x].Gone?)
    ensures m.child(x) != h
  {
  }

  lemma UseRests(w0: World, w: World, st: Step, m: Place, h: nat)
    requires StillRests(w0, w, m, h) && Enabled(w, st) && st.Use? && st.th.Child? && m.pipe(st.p) == m.child(st.th.a)
    ensures StillRests(w0, Next(w, st), m, h)
  {
    ActsElsewhere(w0, w, m, h, st.th.a);
  }

  lemma AskRests(w0: World, w: World, st: Step, m: Place, h: nat)
    requires StillRests(w0, w, m, h) && Enabled(w, st) && st.Ask?
    ensures StillRests(w0, Next(w, st), m, h)
  {
    ActsElsewhere(w0, w, m, h, st.a);
  }

  lemma WakeRests(w0: World, w: World, x: ActorId, m: Place, h: nat)
    requires StillRests(w0, w, m, h) && Enabled(w, WakeStep(Child(x))) && WakesAt(w, m, x)
    ensures StillRests(w0, Next(w, WakeStep(Child(x))), m, h)
  {
    WakeAllEffect(w.s, w.waking[Child(x)]);
    assert m.child(x) != h;
  }

  lemma ExitedRests(w0: World, w: World, a: ActorId, m: Place, h: nat)
    requires StillRests(w0, w, m, h) && Enabled(w, SetExited(a))
    ensures StillRests(w0, Next(w, SetExited(a)), m, h)
  {
    ActsElsewhere(w0, w, m, h, a);
  }

  lemma LeaveRests(w0: World, w: World, a: ActorId, m: Place, h: nat)
    requires StillRests(w0, w, m, h) && Enabled(w, Leave(a))
    ensures StillRests(w0, Next(w, Leave(a)), m, h)
  {
    ActsElsewhere(w0, w, m, h, a);
  }

  /** A child of another computer, or one that goes round in the wait that it was in from the start. */
  predicate Fits(w0: World, m: Place, h: nat, a: ActorId, c: Cond, dl: Option<int>) {
    m.child(a) != h || (a in w0.pc && w0.pc[a] == Parked(c, dl))
  }

  lemma ResumeRests(w0: World, w: World, a: ActorId, m: Place, h: nat)
    requires StillRests(w0, w, m, h) && a in w.pc && m.child(a) != h
    ensures StillRests(w0, Resume(w, a), m, h)
  {
  }

  lemma HoldRests(w0: World, w: World, a: ActorId, c: Cond, dl: Option<int>, m: Place, h: nat)
    requires StillRests(w0, w, m, h) && a in w.pc && Fits(w0, m, h, a, c, dl)
    ensures StillRests(w0, Hold(w, a, c, dl), m, h)
  {
  }

  lemma EnlistRests(w0: World, w: World, a: ActorId, c: Cond, dl: Option<int>, m: Place, h: nat)
    requires StillRests(w0, w, m, h) && a in w.pc && Fits(w0, m, h, a, c, dl) && ValidCond(w, a, c)
    ensures StillRests(w0, Enlist(w, a, c, dl), m, h)
  {
    var w' := Enlist(w, a, c, dl);
    forall p | 0 <= p < |w0.pipes| && m.pipe(p) == h ensures SamePipe(w0, w', p) { assert SamePipe(w0, w, p); }
  }

  lemma SleepRests(w0: World, w: World, a: ActorId, c: Cond, dl: Option<int>, m: Place, h: nat)
    requires StillRests(w0, w, m, h) && a in w.pc && Fits(w0, m, h, a, c, dl)
    requires m.child(a) == h ==> a in w0.pc && SleepsOn(w0, a)
    ensures StillRests(w0, Sleep(w, a, c, dl), m, h)
  {
  }

  lemma BeginRests(w0: World, w: World, a: ActorId, c: Cond, dl: Option<int>, m: Place, h: nat)
    requires StillRests(w0, w, m, h) && a in w.pc && Fits(w0, m, h, a, c, dl)
    requires m.child(a) == h ==> a in w0.pc && SleepsOn(w0, a)
    ensures StillRests(w0, Begin(w, a, c, dl), m, h)
  {
    if a in w.killed {
      ResumeRests(w0, w, a, m, h);
    } else {
      HoldRests(w0, w, a, c, dl, m, h);
    }
  }

  lemma LookRests(w0: World, w: World, a: ActorId, m: Place, h: nat)
    requires StillRests(w0, w, m, h) && Enabled(w, Look(a)) && Fits(w0, m, h, a, w.pc[a].c, w.pc[a].dl)
    requires m.child(a) == h ==> a in w0.pc && SleepsOn(w0, a) && CondAt(m, a, w0.pc[a].c)
    ensures StillRests(w0, Next(w, Look(a)), m, h)
  {
    var c, dl := w.pc[a].c, w.pc[a].dl;
    if m.child(a) == h { StillNotReady(w0, w, m, h, a); }
    if DataReady(w, a, c) || TimedOut(w, dl) {
      ResumeRests(w0, w, a, m, h);
    } else {
      EnlistRests(w0, w, a, c, dl, m, h);
    }
  }

  lemma StillNotReady(w0: World, w: World, m: Place, h: nat, a: ActorId)
    requires StillRests(w0, w, m, h) && a in w0.pc && m.child(a) == h && SleepsOn(w0, a) && CondAt(m, a, w0.pc[a].c)
    ensures var c := w0.pc[a].c; ValidCond(w, a, c) && !Satisfied(w, a, c) && !TimedOut(w, w0.pc[a].dl)
  {
    match w0.pc[a].c
    case CRead(p) => assert SamePipe(w0, w, p);
    case CWrite(p) => assert SamePipe(w0, w, p);
    case _ =>
  }

  lemma StepRests(w0: World, w: World, st: Step, m: Place, h: nat)
    requires Coded(w0, m) && Rests(w0, m, h) && StillRests(w0, w, m, h)
    requires Coded(w, m) && Enabled(w, st) && AsCoded(w, st, m) && ByChild(st)
    ensures StillRests(w0, Next(w, st), m, h)
  {
    match st
    case Use(_, _, _) => UseRests(w0, w, st, m, h);
    case Ask(_, _) => AskRests(w0, w, st, m, h);
    case WakeStep(th) => WakeRests(w0, w, th.a, m, h);
    case SetExited(a) => ExitedRests(w0, w, a, m, h);
    case Leave(a) => LeaveRests(w0, w, a, m, h);
    case Enter(a, c, dl) =>
      ActsElsewhere(w0, w, m, h, a);
      BeginRests(w0, w, a, c, dl, m, h);
    case Recheck(a) =>
      GoesRound(w0, w, a, m, h);
      BeginRests(w0, w, a, w.pc[a].c, w.pc[a].dl, m, h);
    case Look(a) =>
      GoesRound(w0, w, a, m, h);
      LookRests(w0, w, a, m, h);
    case Mark(a) =>
      GoesRound(w0, w, a, m, h);
      SleepRests(w0, w, a, w.pc[a].c, w.pc[a].dl, m, h);
  }

  lemma GoesRound(w0: World, w: World, a: ActorId, m: Place, h: nat)
    requires Coded(w0, m) && Rests(w0, m, h) && StillRests(w0, w, m, h) && a in w.pc && Waits(w.pc[a])
    ensures Fits(w0, m, h, a, w.pc[a].c, w.pc[a].dl)
    ensures m.child(a) == h ==> a in w0.pc && SleepsOn(w0, a) && CondAt(m, a, w0.pc[a].c)
  {
    if m.child(a) == h { assert AtHome(w0, m, a) && SleepsOn(w0, a) && StillSleeps(w0, w, a); }
  }

  // ------------------------------------------------------------ a run of the children alone

  ghost predicate AllByChildren(w: World, steps: seq<Step>, m: Place)
    requires CanRun(w, steps)
    decreases steps
  {
    steps == []
    || (ByChild(steps[0]) && AsCoded(w, steps[0], m) && AllByChildren(Next(w, steps[0]), steps[1..], m))
  }

  lemma {:induction false} RunRests(w0: World, w: World, steps: seq<Step>, m: Place, h: nat)
    requires Coded(w0, m) && Rests(w0, m, h) && StillRests(w0, w, m, h)
    requires WorldInv(w) && Coded(w, m) && CanRun(w, steps) && AllByChildren(w, steps, m)
    ensures StillRests(w0, After(w, steps), m, h)
    decreases steps
  {
    if steps != [] {
      StepRests(w0, w, steps[0], m, h);
      StepKeeps(w, steps[0]);
      StepCoded(w, steps[0], m);
      RunRests(w0, Next(w, steps[0]), steps[1..], m, h);
    }
  }

  /** What never comes back while only children act. */
  ghost predicate Onward(w: World, w': World) {
    && w'.s.now == w.s.now && w'.s.nextId == w.s.nextId && w'.s.events >= w.s.events && w'.killed == w.killed
    && w'.pc.Keys <= w.pc.Keys
    && (forall a :: a in w'.pc && w.pc[a].Gone? ==> w'.pc[a].Gone?)
    && (forall a :: Pending(w, a) ==> Pending(w', a))
  }

  lemma StaysPending(w: World, st: Step, m: Place, a: ActorId)
    requires Enabled(w, st) && AsCoded(w, st, m) && ByChild(st) && Pending(w, a)
    ensures Pending(Next(w, st), a)
  {
    var r :| Unanswered(w, r, a);
    assert Unanswered(Next(w, st), r, a);
  }

  lemma StepOnward(w: World, st: Step, m: Place)
    requires Enabled(w, st) && AsCoded(w, st, m) && ByChild(st)
    ensures Onward(w, Next(w, st))
  {
    forall a | Pending(w, a) ensures Pending(Next(w, st), a) { StaysPending(w, st, m, a); }
    if st.WakeStep? { WakeCounts(w.s, w.waking[st.th]); }
  }

  lemma WakeCounts(s: State, ids: seq<ActorId>)
    ensures WakeAll(s, ids).now == s.now && WakeAll(s, ids).nextId == s.nextId && WakeAll(s, ids).events >= s.events
  {
    UnblockAllEffect(s, ids);
  }

  lemma OnwardJoins(a: World, b: World, c: World)
    requires Onward(a, b) && Onward(b, c)
    ensures Onward(a, c)
  {
  }

  lemma {:induction false} RunOnward(w: World, steps: seq<Step>, m: Place)
    requires CanRun(w, steps) && AllByChildren(w, steps, m)
    ensures Onward(w, After(w, steps))
    decreases steps
  {
    if steps != [] {
      StepOnward(w, steps[0], m);
      RunOnward(Next(w, steps[0]), steps[1..], m);
      OnwardJoins(w, Next(w, steps[0]), After(w, steps));
    }
  }

  lemma {:induction false} ChildrenAreCoded(w: World, steps: seq<Step>, m: Place)
    requires CanRun(w, steps) && AllByChildren(w, steps, m)
    ensures AllCoded(w, steps, m)
    decreases steps
  {
    if steps != [] { ChildrenAreCoded(Next(w, steps[0]), steps[1..], m); }
  }

  // ------------------------------------------------------------ as the main loop sees it

  /** Asleep beside a sibling on its way out, which may wake it. */
  ghost predicate MayBeFreed(w: World, m: Place, a: ActorId) {
    !Ended(w, a) && exists y :: y in w.pc && m.child(y) == m.child(a) && Ended(w, y)
  }

  ghost function View(w: World, m: Place): Sim.Crowd {
    Sim.Crowd(w.s, map a | a in w.pc :: Sim.Kid(m.child(a), Pending(w, a), Ended(w, a), MayBeFreed(w, m, a)))
  }

  lemma ViewOk(w: World, m: Place, computers: nat)
    requires WorldInv(w) && Coded(w, m) && MainLooks(w) && forall a :: a in w.pc ==> m.child(a) < computers
    ensures Sim.CrowdOk(View(w, m), computers)
  {
    var c := View(w, m);
    forall a | a in c.kids
      ensures c.kids[a].ended ==> Sim.Runs(c, a) && !c.kids[a].asks
      ensures c.kids[a].asks && !Sim.Runs(c, a) ==> c.s.actors[a].deadline.None?
      ensures c.kids[a].freed ==> Sim.SomeLeaves(c, c.kids[a].home)
    {
      assert ActorOk(w, a) && KillWakes(w, a) && Patient(w, a);
      if c.kids[a].freed {
        var y :| y in w.pc && m.child(y) == m.child(a) && Ended(w, y);
        assert c.kids[y].ended;
      }
    }
  }

  /** The two moments agree about the child wherever it slept all the time. */
  lemma SleepersStay(w: World, steps: seq<Step>, m: Place, a: ActorId)
    requires WorldInv(w) && Coded(w, m) && MainLooks(w) && CanRun(w, steps) && AllByChildren(w, steps, m)
    requires WorldInv(After(w, steps)) && MainLooks(After(w, steps))
    requires a in w.pc && !Sim.Lively(View(w, m), m.child(a))
    ensures Sim.Stays(View(w, m), View(After(w, steps), m), a)
  {
    var w', h := After(w, steps), m.child(a);
    NotLively(w, m, h);
    SleepersRest(w, m, h);
    RestsStill(w, m, h);
    RunRests(w, w, steps, m, h);
    assert StillSleeps(w, w', a) && SleepsOn(w, a) && ActorOk(w', a);
    PendingStill(w, w', m, a);
    FreedStill(w, w', m, a);
  }

  lemma NotLively(w: World, m: Place, h: nat)
    requires WorldInv(w) && !Sim.Lively(View(w, m), h)
    ensures forall a :: a in w.pc && m.child(a) == h ==> a in w.s.actors && w.s.actors[a].blocked
  {
    forall a | a in w.pc && m.child(a) == h ensures a in w.s.actors && w.s.actors[a].blocked {
      assert a in View(w, m).kids && View(w, m).kids[a].home == h;
      assert !Sim.Runs(View(w, m), a);
    }
  }

  lemma PendingStill(w: World, w': World, m: Place, a: ActorId)
    requires StillRests(w, w', m, m.child(a)) && StillSleeps(w, w', a)
    ensures Pending(w', a) <==> Pending(w, a)
  {
    if Pending(w, a) {
      var r :| Unanswered(w, r, a);
      assert Unanswered(w', r, a);
    }
    if Pending(w', a) {
      var r :| Unanswered(w', r, a);
      assert Unanswered(w, r, a);
    }
  }

  lemma FreedStill(w: World, w': World, m: Place, a: ActorId)
    requires StillRests(w, w', m, m.child(a)) && StillSleeps(w, w', a)
    requires w.pc.Keys == w.s.actors.Keys
    ensures MayBeFreed(w', m, a) <==> MayBeFreed(w, m, a)
  {
    forall y ensures y in w'.pc && m.child(y) == m.child(a) ==> y in w.pc && (Ended(w', y) <==> Ended(w, y)) {
      if y in w'.pc && m.child(y) == m.child(a) { assert StillSleeps(w, w', y); }
    }
    forall y | y in w.pc && m.child(y) == m.child(a) ensures y in w'.pc { assert StillSleeps(w, w', y); }
  }

  /** A new request needs a child of the computer that runs, or is woken by one that leaves. */
  lemma NewAskerHasCaller(w: World, steps: seq<Step>, m: Place, a: ActorId)
    requires WorldInv(w) && Coded(w, m) && MainLooks(w) && CanRun(w, steps) && AllByChildren(w, steps, m)
    requires WorldInv(After(w, steps)) && MainLooks(After(w, steps)) && Onward(w, After(w, steps))
    requires Pending(After(w, steps), a) && !Pending(w, a)
    ensures a in w.pc && Sim.CallerAt(View(w, m), m.child(a))
  {
    var c, h := View(w, m), m.child(a);
    assert a in w.pc && !Ended(w, a);
    if !Sim.Lively(c, h) { SleepersStay(w, steps, m, a); }
    var b :| b in c.kids && c.kids[b].home == h && Sim.Runs(c, b);
    if Ended(w, b) {
      assert MayBeFreed(w, m, a);
      assert Sim.Able(c, a);
    } else {
      assert Sim.Able(c, b);
    }
  }

  lemma SeenSoFar(w: World, w': World, m: Place, computers: nat)
    requires Onward(w, w') && w.pc.Keys == w.s.actors.Keys && Sim.CrowdOk(View(w', m), computers)
    requires forall a :: Pending(w', a) && !Pending(w, a) ==> a in w.pc && Sim.CallerAt(View(w, m), m.child(a))
    requires forall a :: a in w.pc && !Sim.Lively(View(w, m), m.child(a)) ==> Sim.Stays(View(w, m), View(w', m), a)
    ensures Sim.ChildrenMay(View(w, m), View(w', m), computers)
  {
    var c, d := View(w, m), View(w', m);
    forall a | a in c.kids && c.kids[a].asks ensures a in d.kids && d.kids[a].asks { assert Pending(w', a); }
    forall a | a in c.kids && !Sim.Lively(c, c.kids[a].home) ensures Sim.Stays(c, d, a) { assert a in w.pc; }
  }

  /** While only children act, what the main loop sees changes as `Sim.ChildrenMay` says. */
  lemma ChildrenDo(w: World, steps: seq<Step>, m: Place, computers: nat)
    requires WorldInv(w) && Coded(w, m) && MainLooks(w) && (forall a :: a in w.pc ==> m.child(a) < computers)
    requires CanRun(w, steps) && AllByChildren(w, steps, m) && MainLooks(After(w, steps))
    ensures Sim.CrowdOk(View(w, m), computers)
    ensures Sim.ChildrenMay(View(w, m), View(After(w, steps), m), computers)
  {
    var w' := After(w, steps);
    RunKeeps(w, steps);
    ChildrenAreCoded(w, steps, m);
    RunCoded(w, steps, m);
    RunOnward(w, steps, m);
    ViewOk(w, m, computers);
    ViewOk(w', m, computers);
    forall a | Pending(w', a) && !Pending(w, a) ensures a in w.pc && Sim.CallerAt(View(w, m), m.child(a)) {
      NewAskerHasCaller(w, steps, m, a);
    }
    forall a | a in w.pc && !Sim.Lively(View(w, m), m.child(a)) ensures Sim.Stays(View(w, m), View(w', m), a) {
      SleepersStay(w, steps, m, a);
    }
    SeenSoFar(w, w', m, computers);
  }

  lemma SleeperStays(w: World, steps: seq<Step>, m: Place, a: ActorId)
    requires WorldInv(w) && Coded(w, m) && MainLooks(w) && CanRun(w, steps) && AllByChildren(w, steps, m)
    requires a in w.pc && forall b :: b in w.s.actors ==> w.s.actors[b].blocked
    ensures StillSleeps(w, After(w, steps), a)
  {
    var h := m.child(a);
    SleepersRest(w, m, h);
    RestsStill(w, m, h);
    RunRests(w, w, steps, m, h);
  }

  lemma SleepersStayAll(w: World, steps: seq<Step>, m: Place)
    requires WorldInv(w) && Coded(w, m) && MainLooks(w) && CanRun(w, steps) && AllByChildren(w, steps, m)
    requires forall b :: b in w.s.actors ==> w.s.actors[b].blocked
    ensures forall a :: a in w.pc ==> StillSleeps(w, After(w, steps), a)
  {
    forall a | a in w.pc ensures StillSleeps(w, After(w, steps), a) { SleeperStays(w, steps, m, a); }
  }

  lemma SameActors(w: World, w': World)
    requires w.pc.Keys == w.s.actors.Keys && w'.pc.Keys == w'.s.actors.Keys && w'.pc.Keys <= w.pc.Keys
    requires forall a :: a in w.pc ==> StillSleeps(w, w', a)
    ensures w'.s.actors == w.s.actors
  {
    forall a | a in w.s.actors ensures a in w'.s.actors && w'.s.actors[a] == w.s.actors[a] {
      assert a in w.pc && StillSleeps(w, w', a);
    }
  }

  lemma AllBlocked(s: State)
    requires Inv(s)
    ensures s.busy == 0 <==> forall b :: b in s.actors ==> s.actors[b].blocked
  {
    if s.busy == 0 {
      forall b | b in s.actors ensures s.actors[b].blocked { assert b !in Running(s); }
    }
    if forall b :: b in s.actors ==> s.actors[b].blocked { assert Running(s) == {}; }
  }

  /** In particular in every reachable state: once the main loop sees that no actor is busy, the children alone leave
      everybody asleep and everything as it is. */
  lemma SleepLasts(epoch: int, before: seq<Step>, later: seq<Step>, m: Place)
    requires CanRun(Start(epoch), before) && AllCoded(Start(epoch), before, m)
    requires var w := After(Start(epoch), before);
      MainLooks(w) && w.s.busy == 0 && CanRun(w, later) && AllByChildren(w, later, m) && MainLooks(After(w, later))
    ensures var w, w' := After(Start(epoch), before), After(After(Start(epoch), before), later);
      && w'.s.busy == 0 && w'.s.actors == w.s.actors && w'.s.now == w.s.now
      && forall a :: a in w'.pc ==> InterleavingRuns.Asleep(w', a)
  {
    var w := After(Start(epoch), before);
    Reachable(epoch, before);
    RunCoded(Start(epoch), before, m);
    RunKeeps(w, later);
    RunOnward(w, later, m);
    AllBlocked(w.s);
    SleepersStayAll(w, later, m);
    SameActors(w, After(w, later));
    AllBlocked(After(w, later).s);
    AllAsleep(After(w, later));
  }

  /** So it is after every run from the start: between two looks of the main loop, with no step of a kernel between them,
      the children change what it sees only as `Sim.ChildrenMay` says. */
  lemma ChildrenMayIsDerived(epoch: int, before: seq<Step>, later: seq<Step>, m: Place, computers: nat)
    requires CanRun(Start(epoch), before) && AllCoded(Start(epoch), before, m)
    requires var w := After(Start(epoch), before);
      && MainLooks(w) && (forall a :: a in w.pc ==> m.child(a) < computers)
      && CanRun(w, later) && AllByChildren(w, later, m) && MainLooks(After(w, later))
    ensures var w, w' := After(Start(epoch), before), After(After(Start(epoch), before), later);
      Sim.CrowdOk(View(w, m), computers) && Sim.ChildrenMay(View(w, m), View(w', m), computers)
  {
    Reachable(epoch, before);
    RunCoded(Start(epoch), before, m);
    ChildrenDo(After(Start(epoch), before), later, m, computers);
  }
}
