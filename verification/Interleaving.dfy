/** Every interleaving of child threads, the kernel thread and the scheduler: one critical section per step.
    A waker takes two steps (change data and take the waiters; then unblock them). A waiting actor takes
    three under the scheduler lock (read the killed flag; look at the data and register; mark itself
    blocked): other locks may be taken in between, the scheduler lock may not. */
module Interleaving {
  import opened Prelude
  import opened Sched
  import opened Pipes

  /** What an actor waits for. */
  datatype Cond = CRead(p: nat) | CWrite(p: nat) | CIpc(r: nat) | CSleep

  /** Where a child thread is. `Gone`: it has reported its exit code and only leaves the scheduler. */
  datatype Pc =
    | Run
    | Test(c: Cond, dl: Option<int>)
    | Commit(c: Cond, dl: Option<int>)
    | Parked(c: Cond, dl: Option<int>)
    | Gone

  datatype Thread = Main | Child(a: ActorId)

  datatype Slot = Slot(actor: ActorId, answered: bool)

  /** `holder`: the actor inside `wait` with the scheduler lock. `waking`: threads that changed data and
      still have to unblock the actors they took. `out`: each child's terminal pipe. `reported`,
      `removed`: process entries whose exit the kernel was told, and those it dropped after that. */
  datatype World = World(s: State, holder: Option<ActorId>, pc: map<ActorId, Pc>, pipes: seq<Pipe>,
                         slots: map<nat, Slot>, killed: set<ActorId>, waking: map<Thread, seq<ActorId>>,
                         out: map<ActorId, nat>, reported: set<ActorId>, removed: set<ActorId>)

  function Start(epoch: int): World {
    World(State(1, map[], 0, 0, epoch), None, map[], [], map[], {}, map[], map[], {}, {})
  }

  datatype Step =
    | NewPipe(cap: nat)
    | Spawn(terminal: nat)
    | Use(th: Thread, p: nat, op: Op)
    | Kill(th: Thread, a: ActorId)
    | Ask(a: ActorId, r: nat)
    | Answer(r: nat)
    | WakeStep(th: Thread)
    | Enter(a: ActorId, c: Cond, dl: Option<int>)
    | Recheck(a: ActorId)
    | Look(a: ActorId)
    | Mark(a: ActorId)
    | SetExited(a: ActorId)
    | Leave(a: ActorId)
    | Advance(t: int)
    | TryWait(a: ActorId)
    | Remove(a: ActorId)

  // ------------------------------------------------------------ steps

  /** The tag a thread's writes carry; actor ids start at 1. */
  function Tid(th: Thread): nat { if th.Main? then 0 else th.a }

  /** The thread is running its own code and not in the middle of a wake-up. */
  predicate Acting(w: World, th: Thread) {
    th !in w.waking && (th.Child? ==> th.a in w.pc && (w.pc[th.a].Run? || w.pc[th.a].Gone?))
  }

  predicate ValidCond(w: World, a: ActorId, c: Cond) {
    match c
    case CRead(p) => p < |w.pipes|
    case CWrite(p) => p < |w.pipes|
    case CIpc(r) => r in w.slots && w.slots[r].actor == a
    case CSleep => true
  }

  predicate DataReady(w: World, a: ActorId, c: Cond)
    requires ValidCond(w, a, c)
  {
    match c
    case CRead(p) => Readable(w.pipes[p])
    case CWrite(p) => Writable(w.pipes[p])
    case CIpc(r) => w.slots[r].answered
    case CSleep => false
  }

  /** The predicate handed to `wait` holds. */
  predicate Satisfied(w: World, a: ActorId, c: Cond)
    requires ValidCond(w, a, c)
  {
    a in w.killed || DataReady(w, a, c)
  }

  predicate Zombie(w: World, a: ActorId) {
    a in w.out && (a !in w.pc || w.pc[a].Gone?)
  }

  predicate Enabled(w: World, st: Step) {
    match st
    case NewPipe(_) => true
    case Spawn(p) => Acting(w, Main) && w.holder.None? && p < |w.pipes|
    case Use(th, p, op) =>
      && Acting(w, th) && p < |w.pipes|
      && (op.OpWrite? ==> op.call == Tid(th))
      && (th.Child? && w.pc[th.a].Gone? ==> op.OpDropWriter?)
    case Kill(th, a) => Acting(w, th) && a in w.out
    case Ask(a, r) => Acting(w, Child(a)) && w.pc[a].Run? && r !in w.slots
    case Answer(r) => Acting(w, Main) && r in w.slots
    case WakeStep(th) => th in w.waking && w.holder.None?
    case Enter(a, c, dl) => Acting(w, Child(a)) && w.pc[a].Run? && w.holder.None? && ValidCond(w, a, c)
    case Recheck(a) => a in w.pc && w.pc[a].Parked? && w.holder.None?
    case Look(a) => a in w.pc && w.pc[a].Test? && ValidCond(w, a, w.pc[a].c)
    case Mark(a) => a in w.pc && w.pc[a].Commit?
    case SetExited(a) => Acting(w, Child(a)) && w.pc[a].Run?
    case Leave(a) => Acting(w, Child(a)) && w.pc[a].Gone? && w.holder.None?
    case Advance(_) => Acting(w, Main) && w.holder.None?
    case TryWait(a) => Acting(w, Main) && a in w.out && w.out[a] < |w.pipes|
    case Remove(a) => Acting(w, Main) && a in w.reported && a in w.out && w.out[a] < |w.pipes| && w.pipes[w.out[a]].buf == []
  }

  /** Remember whom `th` has to wake (nobody: nothing to do). */
  function Owes(w: World, th: Thread, ids: seq<ActorId>): World {
    if ids == [] then w else w.(waking := w.waking[th := ids])
  }

  /** `wait` returns: the actor is runnable again and the lock is free. */
  function Resume(w: World, a: ActorId): World {
    w.(s := Unblock(w.s, a), holder := None, pc := w.pc[a := Run])
  }

  /** The killed flag was clear: keep the scheduler lock and look at the data next. */
  function Hold(w: World, a: ActorId, c: Cond, dl: Option<int>): World {
    w.(holder := Some(a), pc := w.pc[a := Test(c, dl)])
  }

  /** The data was not ready: the actor is among the pipe's waiters, still holding the scheduler lock. */
  function Enlist(w: World, a: ActorId, c: Cond, dl: Option<int>): World
    requires ValidCond(w, a, c)
  {
    var pipes :=
      match c
      case CRead(p) => w.pipes[p := AddWaiter(w.pipes[p], a)]
      case CWrite(p) => w.pipes[p := AddWaiter(w.pipes[p], a)]
      case _ => w.pipes;
    w.(pipes := pipes, pc := w.pc[a := Commit(c, dl)])
  }

  /** Marked blocked; the lock is free. */
  function Sleep(w: World, a: ActorId, c: Cond, dl: Option<int>): World {
    w.(s := Block(w.s, a, dl), holder := None, pc := w.pc[a := Parked(c, dl)])
  }

  /** The killed flag decides at once; otherwise look at the data. */
  function Begin(w: World, a: ActorId, c: Cond, dl: Option<int>): World {
    if a in w.killed then Resume(w, a) else Hold(w, a, c, dl)
  }

  predicate TimedOut(w: World, dl: Option<int>) { dl.Some? && w.s.now >= dl.value }

  function Next(w: World, st: Step): World
    requires Enabled(w, st)
  {
    match st
    case NewPipe(cap) => w.(pipes := w.pipes + [Empty(cap)])
    case Spawn(p) =>
      var id := w.s.nextId;
      w.(s := Register(w.s), pc := w.pc[id := Run], out := w.out[id := p])
    case Use(th, p, op) =>
      var o := Apply(w.pipes[p], op);
      Owes(w.(pipes := w.pipes[p := o.p]), th, o.woken)
    case Kill(th, a) =>
      var k := w.(killed := w.killed + {a});
      if a in w.pc && !w.pc[a].Gone? then Owes(k, th, [a]) else k
    case Ask(a, r) => w.(slots := w.slots[r := Slot(a, false)])
    case Answer(r) => Owes(w.(slots := w.slots[r := Slot(w.slots[r].actor, true)]), Main, [w.slots[r].actor])
    case WakeStep(th) => w.(s := WakeAll(w.s, w.waking[th]), waking := w.waking - {th})
    case Enter(a, c, dl) => Begin(w, a, c, dl)
    case Recheck(a) => Begin(w, a, w.pc[a].c, w.pc[a].dl)
    case Look(a) =>
      var c, dl := w.pc[a].c, w.pc[a].dl;
      if DataReady(w, a, c) || TimedOut(w, dl) then Resume(w, a) else Enlist(w, a, c, dl)
    case Mark(a) => Sleep(w, a, w.pc[a].c, w.pc[a].dl)
    case SetExited(a) => w.(pc := w.pc[a := Gone])
    case Leave(a) => w.(s := Exit(w.s, a), pc := w.pc - {a})
    case Advance(t) => w.(s := AdvanceTo(w.s, t))
    case TryWait(a) =>
      if Zombie(w, a) && w.pipes[w.out[a]].buf == [] then w.(reported := w.reported + {a}) else w
    case Remove(a) => w.(removed := w.removed + {a})
  }

  // ------------------------------------------------------------ the invariant

  /** Some waker has taken `a` and not yet unblocked it. */
  ghost predicate Woken(w: World, a: ActorId) {
    exists th :: th in w.waking && a in w.waking[th]
  }

  ghost predicate Registered(w: World, a: ActorId, c: Cond)
    requires ValidCond(w, a, c)
  {
    match c
    case CRead(p) => a in w.pipes[p].waiters
    case CWrite(p) => a in w.pipes[p].waiters
    case _ => true
  }

  /** Asleep, or certain to fall asleep without looking again. */
  predicate Sleeping(w: World, a: ActorId)
    requires a in w.pc && a in w.s.actors
  {
    w.pc[a].Commit? || (w.pc[a].Parked? && w.s.actors[a].blocked)
  }

  /** What is known about actor `a` wherever it is. */
  ghost predicate ActorOk(w: World, a: ActorId)
    requires a in w.pc && a in w.s.actors
  {
    var pc := w.pc[a];
    && (pc.Test? || pc.Commit? <==> w.holder == Some(a))
    && (pc.Run? || pc.Gone? ==> !w.s.actors[a].blocked)
    && (pc.Test? || pc.Commit? || pc.Parked? ==> ValidCond(w, a, pc.c))
    && (pc.Parked? && w.s.actors[a].blocked ==> w.s.actors[a].deadline == pc.dl)
    && (pc.Commit? && pc.dl.Some? ==> w.s.now < pc.dl.value)
    && a in w.out
  }

  /** No lost wake-up, for one actor. */
  ghost predicate Safe(w: World, a: ActorId)
    requires a in w.pc && a in w.s.actors && ActorOk(w, a)
  {
    && (w.pc[a].Test? && a in w.killed ==> Woken(w, a))
    && (Sleeping(w, a) ==>
          && (Registered(w, a, w.pc[a].c) || Woken(w, a))
          && (Satisfied(w, a, w.pc[a].c) ==> Woken(w, a)))
  }

  /** Once the exit has been reported, nothing the child wrote is still in its terminal pipe. */
  ghost predicate Drained(w: World, a: ActorId) {
    && a in w.out && w.out[a] < |w.pipes| && Zombie(w, a)
    && forall i :: 0 <= i < |w.pipes[w.out[a]].buf| ==> w.pipes[w.out[a]].buf[i].call != a
  }

  ghost predicate Shape(w: World) {
    && Inv(w.s) && w.s.nextId >= 1
    && w.pc.Keys == w.s.actors.Keys
    && (w.holder.Some? ==> w.holder.value in w.pc)
    && (forall a :: a in w.out ==> 1 <= a < w.s.nextId && w.out[a] < |w.pipes|)
    && (forall p :: 0 <= p < |w.pipes| ==> PipeOk(w.pipes[p]))
    && (forall th :: th in w.waking && th.Child? ==> th.a in w.pc && (w.pc[th.a].Run? || w.pc[th.a].Gone?))
  }

  ghost predicate WorldInv(w: World) {
    && Shape(w)
    && (forall a :: a in w.pc ==> ActorOk(w, a))
    && (forall a :: a in w.pc ==> Safe(w, a))
    && (forall a :: a in w.reported ==> Drained(w, a))
    && w.removed <= w.reported
  }

  // ------------------------------------------------------------ every step keeps it

  lemma NewPipeKeeps(w: World, st: Step)
    requires WorldInv(w) && st.NewPipe? && Enabled(w, st)
    ensures WorldInv(Next(w, st))
  {
    var w' := Next(w, st);
    forall a | a in w'.pc ensures ActorOk(w', a) && Safe(w', a) {
      assert ActorOk(w, a) && Safe(w, a);
      assert Woken(w, a) ==> Woken(w', a);
    }
    forall a | a in w'.reported ensures Drained(w', a) { assert Drained(w, a); }
  }

  lemma SpawnKeeps(w: World, st: Step)
    requires WorldInv(w) && st.Spawn? && Enabled(w, st)
    ensures WorldInv(Next(w, st))
  {
    var w' := Next(w, st);
    RegisterInv(w.s);
    forall a | a in w'.pc ensures ActorOk(w', a) && Safe(w', a) {
      if a != w.s.nextId {
        assert ActorOk(w, a) && Safe(w, a);
        assert Woken(w, a) ==> Woken(w', a);
      }
    }
    forall a | a in w'.reported ensures Drained(w', a) { assert Drained(w, a); }
  }

  lemma UseActor(w: World, st: Step, a: ActorId)
    requires Shape(w) && st.Use? && Enabled(w, st) && a in w.pc && ActorOk(w, a) && Safe(w, a)
    ensures ActorOk(Next(w, st), a) && Safe(Next(w, st), a)
  {
    var w' := Next(w, st);
    var was := w.pipes[st.p];
    var o := Apply(was, st.op);
    ApplyKeeps(was, st.op);
    assert w'.pc == w.pc && w'.s == w.s && w'.killed == w.killed && w'.slots == w.slots;
    if Woken(w, a) {
      var th :| th in w.waking && a in w.waking[th];
      assert th in w'.waking && a in w'.waking[th];
    }
    if a in o.woken { assert a in w'.waking[st.th]; }
    if Sleeping(w, a) && Satisfied(w', a, w.pc[a].c) && !Satisfied(w, a, w.pc[a].c) {
      FlipTakesWaiters(was, st.op);
    }
  }

  lemma UseDrained(w: World, st: Step, a: ActorId)
    requires Shape(w) && st.Use? && Enabled(w, st) && Drained(w, a)
    ensures Drained(Next(w, st), a)
  {
    if w.out[a] == st.p && st.op.OpWrite? { assert st.op.call == Tid(st.th) != a; }
  }

  lemma UseKeeps(w: World, st: Step)
    requires WorldInv(w) && st.Use? && Enabled(w, st)
    ensures WorldInv(Next(w, st))
  {
    var w' := Next(w, st);
    ApplyKeeps(w.pipes[st.p], st.op);
    assert Shape(w');
    forall a | a in w'.pc ensures ActorOk(w', a) && Safe(w', a) { UseActor(w, st, a); }
    forall a | a in w'.reported ensures Drained(w', a) { UseDrained(w, st, a); }
  }

  lemma KillActor(w: World, st: Step, a: ActorId)
    requires Shape(w) && st.Kill? && Enabled(w, st) && a in w.pc && ActorOk(w, a) && Safe(w, a)
    ensures ActorOk(Next(w, st), a) && Safe(Next(w, st), a)
  {
    var w' := Next(w, st);
    if Woken(w, a) {
      var th :| th in w.waking && a in w.waking[th];
      assert th in w'.waking && a in w'.waking[th];
    }
    if a == st.a && !w.pc[a].Gone? { assert a in w'.waking[st.th]; }
  }

  lemma KillKeeps(w: World, st: Step)
    requires WorldInv(w) && st.Kill? && Enabled(w, st)
    ensures WorldInv(Next(w, st))
  {
    var w' := Next(w, st);
    assert Shape(w');
    forall a | a in w'.pc ensures ActorOk(w', a) && Safe(w', a) { KillActor(w, st, a); }
    forall a | a in w'.reported ensures Drained(w', a) { assert Drained(w, a); }
  }

  lemma SlotKeeps(w: World, st: Step)
    requires WorldInv(w) && (st.Ask? || st.Answer?) && Enabled(w, st)
    ensures WorldInv(Next(w, st))
  {
    var w' := Next(w, st);
    forall a | a in w'.pc ensures ActorOk(w', a) && Safe(w', a) {
      assert ActorOk(w, a) && Safe(w, a);
      if Woken(w, a) {
        var th :| th in w.waking && a in w.waking[th];
        assert th in w'.waking && a in w'.waking[th];
      }
      if st.Answer? && a == w.slots[st.r].actor { assert a in w'.waking[Main]; }
    }
    forall a | a in w'.reported ensures Drained(w', a) { assert Drained(w, a); }
  }

  lemma WakeKeeps(w: World, st: Step)
    requires WorldInv(w) && st.WakeStep? && Enabled(w, st)
    ensures WorldInv(Next(w, st))
  {
    var w' := Next(w, st);
    WakeAllEffect(w.s, w.waking[st.th]);
    forall a | a in w'.pc ensures ActorOk(w', a) && Safe(w', a) {
      assert ActorOk(w, a) && Safe(w, a);
      if Woken(w, a) && a !in w.waking[st.th] {
        var th :| th in w.waking && a in w.waking[th];
        assert th in w'.waking && a in w'.waking[th];
      }
    }
    forall a | a in w'.reported ensures Drained(w', a) { assert Drained(w, a); }
  }

  lemma ResumeActor(w: World, a: ActorId, b: ActorId)
    requires Shape(w) && a in w.pc && ActorOk(w, a) && !w.pc[a].Gone? && (w.holder.Some? ==> w.holder.value == a)
    requires b in w.pc && ActorOk(w, b) && Safe(w, b)
    ensures var w' := Resume(w, a);
      b in w'.pc && b in w'.s.actors && ActorOk(w', b) && Safe(w', b)
  {
    assert Woken(Resume(w, a), b) <==> Woken(w, b);
  }

  lemma ResumeKeeps(w: World, a: ActorId)
    requires WorldInv(w) && a in w.pc && !w.pc[a].Gone? && (w.holder.Some? ==> w.holder.value == a)
    ensures WorldInv(Resume(w, a))
  {
    var w' := Resume(w, a);
    UnblockInv(w.s, a);
    forall b | b in w'.pc ensures ActorOk(w', b) && Safe(w', b) { ResumeActor(w, a, b); }
    forall b | b in w'.reported ensures Drained(w', b) { assert Drained(w, b); }
  }

  lemma HoldActor(w: World, a: ActorId, c: Cond, dl: Option<int>, b: ActorId)
    requires Shape(w) && a in w.pc && ActorOk(w, a) && w.holder.None? && a !in w.killed && ValidCond(w, a, c) && (w.pc[a].Run? || w.pc[a] == Parked(c, dl)) && Child(a) !in w.waking
    requires b in w.pc && ActorOk(w, b) && Safe(w, b)
    ensures var w' := Hold(w, a, c, dl);
      b in w'.pc && b in w'.s.actors && ActorOk(w', b) && Safe(w', b)
  {
    assert Woken(Hold(w, a, c, dl), b) <==> Woken(w, b);
  }

  lemma HoldKeeps(w: World, a: ActorId, c: Cond, dl: Option<int>)
    requires WorldInv(w) && a in w.pc && w.holder.None? && a !in w.killed && ValidCond(w, a, c) && (w.pc[a].Run? || w.pc[a] == Parked(c, dl)) && Child(a) !in w.waking
    ensures WorldInv(Hold(w, a, c, dl))
  {
    var w' := Hold(w, a, c, dl);
    forall b | b in w'.pc ensures ActorOk(w', b) && Safe(w', b) { HoldActor(w, a, c, dl, b); }
    forall b | b in w'.reported ensures Drained(w', b) { assert Drained(w, b); }
  }

  lemma EnlistActor(w: World, a: ActorId, c: Cond, dl: Option<int>, b: ActorId)
    requires Shape(w) && a in w.pc && ActorOk(w, a) && w.pc[a] == Test(c, dl) && ValidCond(w, a, c) && !DataReady(w, a, c) && !TimedOut(w, dl)
    requires b in w.pc && ActorOk(w, b) && Safe(w, b)
    ensures var w' := Enlist(w, a, c, dl);
      b in w'.pc && b in w'.s.actors && ActorOk(w', b) && Safe(w', b)
  {
    assert Woken(Enlist(w, a, c, dl), b) <==> Woken(w, b);
  }

  lemma EnlistKeeps(w: World, a: ActorId, c: Cond, dl: Option<int>)
    requires WorldInv(w) && a in w.pc && w.pc[a] == Test(c, dl) && ValidCond(w, a, c) && !DataReady(w, a, c) && !TimedOut(w, dl)
    ensures WorldInv(Enlist(w, a, c, dl))
  {
    var w' := Enlist(w, a, c, dl);
    forall b | b in w'.pc ensures ActorOk(w', b) && Safe(w', b) { EnlistActor(w, a, c, dl, b); }
    forall b | b in w'.reported ensures Drained(w', b) { assert Drained(w, b); }
  }

  lemma SleepActor(w: World, a: ActorId, c: Cond, dl: Option<int>, b: ActorId)
    requires Shape(w) && a in w.pc && ActorOk(w, a) && w.pc[a] == Commit(c, dl)
    requires b in w.pc && ActorOk(w, b) && Safe(w, b)
    ensures var w' := Sleep(w, a, c, dl);
      b in w'.pc && b in w'.s.actors && ActorOk(w', b) && Safe(w', b)
  {
    assert Woken(Sleep(w, a, c, dl), b) <==> Woken(w, b);
  }

  lemma SleepKeeps(w: World, a: ActorId, c: Cond, dl: Option<int>)
    requires WorldInv(w) && a in w.pc && w.pc[a] == Commit(c, dl)
    ensures WorldInv(Sleep(w, a, c, dl))
  {
    var w' := Sleep(w, a, c, dl);
    assert ActorOk(w, a);
    BlockInv(w.s, a, dl);
    forall b | b in w'.pc ensures ActorOk(w', b) && Safe(w', b) { SleepActor(w, a, c, dl, b); }
    forall b | b in w'.reported ensures Drained(w', b) { assert Drained(w, b); }
  }

  lemma BeginKeeps(w: World, a: ActorId, c: Cond, dl: Option<int>)
    requires WorldInv(w) && a in w.pc && w.holder.None? && ValidCond(w, a, c)
    requires (w.pc[a].Run? && Child(a) !in w.waking) || w.pc[a] == Parked(c, dl)
    ensures WorldInv(Begin(w, a, c, dl))
  {
    if a in w.killed { ResumeKeeps(w, a); } else { HoldKeeps(w, a, c, dl); }
  }

  lemma LookKeeps(w: World, a: ActorId)
    requires WorldInv(w) && Enabled(w, Look(a))
    ensures WorldInv(Next(w, Look(a)))
  {
    assert ActorOk(w, a);
    var c, dl := w.pc[a].c, w.pc[a].dl;
    if DataReady(w, a, c) || TimedOut(w, dl) { ResumeKeeps(w, a); } else { EnlistKeeps(w, a, c, dl); }
  }

  lemma ExitActor(w: World, st: Step, a: ActorId)
    requires Shape(w) && (st.SetExited? || st.Leave?) && Enabled(w, st) && a in w.pc && ActorOk(w, a) && Safe(w, a)
    ensures a in Next(w, st).pc ==> ActorOk(Next(w, st), a) && Safe(Next(w, st), a)
  {
    assert Woken(Next(w, st), a) <==> Woken(w, a);
  }

  lemma ExitKeeps(w: World, st: Step)
    requires WorldInv(w) && (st.SetExited? || st.Leave?) && Enabled(w, st)
    ensures WorldInv(Next(w, st))
  {
    var w' := Next(w, st);
    ExitInv(w.s, st.a);
    assert ActorOk(w, st.a);
    assert Shape(w');
    forall a | a in w'.pc ensures ActorOk(w', a) && Safe(w', a) { ExitActor(w, st, a); }
    forall a | a in w'.reported ensures Drained(w', a) { assert Drained(w, a); }
  }

  lemma ClockKeeps(w: World, st: Step)
    requires WorldInv(w) && st.Advance? && Enabled(w, st)
    ensures WorldInv(Next(w, st))
  {
    var w' := Next(w, st);
    AdvanceInv(w.s, st.t);
    forall a | a in w'.pc ensures ActorOk(w', a) && Safe(w', a) {
      assert ActorOk(w, a) && Safe(w, a);
      assert Woken(w', a) <==> Woken(w, a);
    }
    forall a | a in w'.reported ensures Drained(w', a) { assert Drained(w, a); }
  }

  lemma ReapActor(w: World, st: Step, a: ActorId)
    requires Shape(w) && (st.TryWait? || st.Remove?) && Enabled(w, st) && a in w.pc && ActorOk(w, a) && Safe(w, a)
    ensures ActorOk(Next(w, st), a) && Safe(Next(w, st), a)
  {
    assert Woken(Next(w, st), a) <==> Woken(w, a);
  }

  lemma ReapKeeps(w: World, st: Step)
    requires WorldInv(w) && (st.TryWait? || st.Remove?) && Enabled(w, st)
    ensures WorldInv(Next(w, st))
  {
    var w' := Next(w, st);
    forall a | a in w'.pc ensures ActorOk(w', a) && Safe(w', a) { ReapActor(w, st, a); }
    forall a | a in w'.reported ensures Drained(w', a) { if a in w.reported { assert Drained(w, a); } }
  }

  lemma StepKeeps(w: World, st: Step)
    requires WorldInv(w) && Enabled(w, st)
    ensures WorldInv(Next(w, st))
  {
    match st
    case NewPipe(_) => NewPipeKeeps(w, st);
    case Spawn(_) => SpawnKeeps(w, st);
    case Use(_, _, _) => UseKeeps(w, st);
    case Kill(_, _) => KillKeeps(w, st);
    case Ask(_, _) => SlotKeeps(w, st);
    case Answer(_) => SlotKeeps(w, st);
    case WakeStep(_) => WakeKeeps(w, st);
    case Enter(a, c, dl) => BeginKeeps(w, a, c, dl);
    case Recheck(a) =>
      assert ActorOk(w, a);
      BeginKeeps(w, a, w.pc[a].c, w.pc[a].dl);
    case Look(a) => LookKeeps(w, a);
    case Mark(a) => SleepKeeps(w, a, w.pc[a].c, w.pc[a].dl);
    case SetExited(_) => ExitKeeps(w, st);
    case Leave(_) => ExitKeeps(w, st);
    case Advance(_) => ClockKeeps(w, st);
    case TryWait(_) => ReapKeeps(w, st);
    case Remove(_) => ReapKeeps(w, st);
  }
}
