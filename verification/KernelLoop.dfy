/** The bridge and the kernel loop as objects. A ghost trace shows that whatever they do is a run of the
    step system of `KernelIpc`, so what is proved of runs holds of the objects. */
module KernelLoop {
  import opened Prelude
  import opened KernelIpc
  import opened KernelCalls
  import Sim

  const IDLE_TICK_MS := 100

  /** How one kernel export ended: it returned; the host forced it to stop; it trapped by itself. */
  datatype CallEnd = Returned(rv: int) | Forced | Trapped

  function Max(a: int, b: int): int { if a < b then b else a }

  ghost predicate Reached(trace: seq<Step>, s: St) {
    CanRun(Init(), trace) && After(Init(), trace) == s
  }

  lemma {:induction false} RunMore(s: St, steps: seq<Step>, st: Step)
    requires CanRun(s, steps) && Enabled(After(s, steps), st)
    ensures CanRun(s, steps + [st]) && After(s, steps + [st]) == Next(After(s, steps), st)
    decreases steps
  {
    var all := steps + [st];
    if steps != [] {
      RunMore(Next(s, steps[0]), steps[1..], st);
      assert all[0] == steps[0] && all[1..] == steps[1..] + [st];
    } else {
      assert all[1..] == [];
    }
  }

  /** One more step of the step system. */
  lemma Then(trace: seq<Step>, s: St, st: Step, s': St)
    requires Reached(trace, s) && Enabled(s, st) && s' == Next(s, st)
    ensures Reached(trace + [st], s')
  {
    RunMore(Init(), trace, st);
  }

  /** With no loop under way, every request so far is queued, answered or dropped. */
  lemma AllPlaced(trace: seq<Step>, s: St)
    requires Reached(trace, s) && s.batch == []
    ensures forall r :: r in s.issued ==> r in s.incoming || r in s.waiting || r in s.answered || r in s.dropped
  {
    RunKeeps(Init(), trace);
    Parts(s);
    forall r | r in s.issued ensures r in s.incoming || r in s.waiting || r in s.answered || r in s.dropped {
      assert r in multiset(s.issued);
      assert r in multiset(All(s));
    }
  }

  /** What was put back and what is still to come are a part of `reqs`, in order. */
  ghost predicate PartOf(kept: seq<Req>, left: seq<Req>, reqs: seq<Req>) { Sub(kept + left, reqs) }

  /** The next of `reqs` may be put back or left out. */
  lemma KeepOrLeave(kept: seq<Req>, reqs: seq<Req>, i: nat)
    requires i < |reqs| && PartOf(kept, reqs[i..], reqs)
    ensures PartOf(kept, reqs[i + 1..], reqs) && PartOf(kept + [reqs[i]], reqs[i + 1..], reqs)
  {
    SubWithout(kept + reqs[i..], |kept|, reqs);
    AroundOne(kept, reqs, i);
  }

  lemma AllOf(reqs: seq<Req>)
    ensures PartOf([], reqs, reqs)
  {
    SubSelf(reqs);
    assert [] + reqs == reqs;
  }

  lemma NoneLeft(kept: seq<Req>, reqs: seq<Req>)
    requires PartOf(kept, [], reqs)
    ensures Sub(kept, reqs)
  {
    assert kept + [] == kept;
  }

  lemma AroundOne<T>(kept: seq<T>, reqs: seq<T>, i: nat)
    requires i < |reqs|
    ensures var t := kept + reqs[i..];
      t[..|kept|] + t[|kept| + 1..] == kept + reqs[i + 1..] && t == kept + [reqs[i]] + reqs[i + 1..]
  {
  }

  /** `IpcBridge`: the queue the children push to. */
  class Bridge {
    var incoming: seq<Req>
    var abandoned: set<nat>
    ghost var issued: seq<Req>
    ghost var answered: seq<Req>
    ghost var replies: seq<IpcResult>

    constructor ()
      ensures incoming == [] && abandoned == {} && issued == [] && answered == [] && replies == []
    {
      incoming, abandoned, issued, answered, replies := [], {}, [], [], [];
    }

    method TakeIncoming() returns (v: seq<Req>)
      modifies this`incoming
      ensures v == Sorted(old(incoming)) && incoming == []
      ensures InOrder(v) && multiset(v) == multiset(old(incoming))
    {
      SortedOrder(incoming);
      v := Sorted(incoming);
      incoming := [];
    }

    /** Fill the caller's slot; the wake-up that follows is a step of the interleaving model. */
    method Complete(r: Req, reply: IpcResult)
      modifies this`answered, this`replies
      ensures answered == old(answered) + [r] && replies == old(replies) + [reply]
    {
      answered, replies := answered + [r], replies + [reply];
    }
  }

  /** The worker loop of one kernel. Child threads run between any two of its critical sections. */
  class Kernel {
    const bridge: Bridge
    const layout: Layout
    var mem: seq<byte>
    var waiting: seq<Req>
    var faulted: bool
    var nextDue: int
    ghost var batch: seq<Req>
    ghost var draining: bool
    ghost var calling: bool
    ghost var dropped: seq<Req>
    ghost var trace: seq<Step>
    /** The calls of exports; the source counts them. */
    ghost var log: seq<Made>

    ghost function View(): St
      reads this, bridge
    {
      St(bridge.issued, bridge.incoming, waiting, batch, draining, calling, bridge.answered, dropped, bridge.abandoned, faulted)
    }

    ghost function Now(): Books
      reads this, bridge
    {
      Books(log, bridge.answered, bridge.replies, bridge.abandoned, faulted)
    }

    ghost predicate Valid()
      reads this, bridge
    {
      Reached(trace, View()) && LayoutOk(layout, |mem|) && |bridge.replies| == |bridge.answered|
    }

    constructor (bridge: Bridge, layout: Layout, mem: seq<byte>)
      requires LayoutOk(layout, |mem|)
      requires bridge.issued == bridge.incoming == bridge.answered == [] && bridge.replies == [] && bridge.abandoned == {}
      ensures Valid() && View() == Init() && nextDue == 0 && this.bridge == bridge && this.layout == layout && log == []
    {
      this.bridge, this.layout, this.mem := bridge, layout, mem;
      waiting, faulted, nextDue, batch, draining, calling, dropped, trace, log := [], false, 0, [], false, false, [], [], [];
    }

    /** Child threads push requests and give up on theirs, any number of them. */
    method Children()
      requires Valid()
      modifies bridge, this`trace
      ensures Valid() && old(trace) <= trace
      ensures bridge.answered == old(bridge.answered) && bridge.replies == old(bridge.replies)
      ensures old(bridge.issued) <= bridge.issued && old(bridge.incoming) <= bridge.incoming
      ensures old(bridge.abandoned) <= bridge.abandoned
    {
    }

    /** Mark the kernel dead, if it is not yet. */
    method Die()
      requires Valid()
      modifies this`faulted, this`trace
      ensures Valid() && old(trace) <= trace && faulted
    {
      ghost var was := View();
      faulted := true;
      Then(trace, was, Fault, View());
      trace := trace + [Fault];
    }

    /** The kernel's code runs and changes its memory, which never shrinks; so do the children. */
    method Compute()
      requires Valid()
      modifies bridge, this`mem, this`trace
      ensures Valid() && old(trace) <= trace
      ensures bridge.answered == old(bridge.answered) && bridge.replies == old(bridge.replies)
      ensures old(bridge.issued) <= bridge.issued && old(bridge.incoming) <= bridge.incoming
      ensures old(bridge.abandoned) <= bridge.abandoned
    {
      var after: seq<byte> := *;
      if |after| >= |mem| {
        mem := after;
      }
      Children();
    }

    /** The recovery export; a kernel that cannot recover is dead. */
    method Recover() returns (recovered: bool)
      requires Valid()
      modifies bridge, this`mem, this`faulted, this`trace
      ensures Valid() && old(trace) <= trace
      ensures bridge.answered == old(bridge.answered) && bridge.replies == old(bridge.replies)
      ensures old(bridge.issued) <= bridge.issued && old(bridge.incoming) <= bridge.incoming
      ensures old(bridge.abandoned) <= bridge.abandoned
      ensures faulted <==> old(faulted) || !recovered
    {
      recovered := *;
      Compute();
      if !recovered {
        Die();
      }
    }

    /** Any kernel export, with whatever the children do meanwhile. A dead kernel is not called; a forced stop is
        recovered from, any other trap is the end. */
    method Call(what: Export) returns (rv: Option<int>, end: CallEnd, recovered: bool)
      requires Valid()
      modifies bridge, this`mem, this`faulted, this`trace, this`log
      ensures Valid() && old(trace) <= trace
      ensures bridge.answered == old(bridge.answered) && bridge.replies == old(bridge.replies)
      ensures old(bridge.issued) <= bridge.issued && old(bridge.incoming) <= bridge.incoming
      ensures old(bridge.abandoned) <= bridge.abandoned
      ensures old(faulted) ==> faulted && rv.None? && log == old(log)
      ensures !old(faulted) ==>
                && (faulted <==> end.Trapped? || (end.Forced? && !recovered))
                && rv == if end.Returned? then Some(end.rv) else None
      ensures !old(faulted) ==>
                && |log| == |old(log)| + 1 && log[..|old(log)|] == old(log)
                && log[|old(log)|].what == what && log[|old(log)|].rv == rv && log[|old(log)|].before == old(mem)
                && LayoutOk(layout, |log[|old(log)|].after|) && (rv.Some? ==> log[|old(log)|].after == mem)
    {
      rv, end, recovered := None, *, true;
      if faulted {
        return;
      }
      ghost var before := mem;
      Compute();
      log := log + [Made(what, if end.Returned? then Some(end.rv) else None, before, mem)];
      match end
      case Returned(v) => rv := Some(v);
      case Forced => recovered := Recover();
      case Trapped => Die();
    }

    /** `rv` is what the kernel asked for, if it answered. */
    method Tick(now: int) returns (rv: Option<int>)
      requires Valid()
      modifies bridge, this`mem, this`faulted, this`nextDue, this`trace, this`log
      ensures Valid() && old(trace) <= trace && Later(old(Now()), Now())
      ensures old(faulted) ==> log == old(log)
      ensures !old(faulted) ==> |log| == |old(log)| + 1 && log[|old(log)|].what == OnTick(now) && log[|old(log)|].rv == rv
      ensures bridge.answered == old(bridge.answered) && bridge.replies == old(bridge.replies)
      ensures old(bridge.issued) <= bridge.issued
      ensures old(faulted) ==> faulted && rv.None?
      ensures nextDue == Due(rv, now)
      ensures nextDue >= now
    {
      var end, recovered;
      rv, end, recovered := Call(OnTick(now));
      nextDue := if rv.Some? && rv.value >= 0 then Max(rv.value, now) else now + IDLE_TICK_MS;
    }

    /** The object has just made the step `st` from `was`. */
    ghost method Note(was: St, st: Step)
      requires Reached(trace, was) && Enabled(was, st) && View() == Next(was, st)
      requires LayoutOk(layout, |mem|) && |bridge.replies| == |bridge.answered|
      modifies this`trace
      ensures Valid() && old(trace) <= trace
    {
      Then(trace, was, st, View());
      trace := trace + [st];
    }

    /** One turn of the loop of `service_ipc`. A reply is completed; a pending request, and one whose
        dispatch trapped, goes back into the queue. The caller may give up during the dispatch. */
    method ServeOne(r: Req) returns (completed: bool, ghost turn: Turn)
      requires Valid() && batch != [] && batch[0] == r && !draining && !calling
      modifies bridge, this`mem, this`waiting, this`faulted, this`batch, this`calling, this`dropped, this`trace, this`log
      ensures Valid() && old(trace) <= trace && batch == old(batch)[1..] && !calling
      ensures old(bridge.issued) <= bridge.issued
      ensures turn.req == r && TurnTaken(layout, turn, old(Now()), Now())
      ensures waiting == if Waits(turn) then old(waiting) + [r] else old(waiting)
      ensures dropped == if turn.call.None? && turn.reply.None? then old(dropped) + [r] else old(dropped)
      ensures completed <==> Completed(turn)
    {
      completed, turn := false, Turn(r, None, None, false);
      ghost var was := View();
      if r.id in bridge.abandoned {
        dropped, batch := dropped + [r], batch[1..];
        Note(was, Check);
      } else if faulted {
        turn := turn.(reply := Some(|bridge.answered|), dead := true);
        bridge.Complete(r, ERROR);
        batch := batch[1..];
        Note(was, Check);
      } else {
        calling := true;
        Note(was, Check);
        var answer;
        answer, turn := Dispatch(r);
        completed := answer.Some?;
      }
    }

    /** Copy the arguments to where the kernel expects them. */
    method WriteArgs(args: seq<byte>)
      requires Valid() && |args| <= layout.argsCap
      modifies this`mem
      ensures Valid() && |mem| == |old(mem)|
      ensures mem[layout.argsAt..layout.argsAt + |args|] == args
      ensures mem[..layout.argsAt] == old(mem)[..layout.argsAt]
      ensures mem[layout.argsAt + |args|..] == old(mem)[layout.argsAt + |args|..]
    {
      mem := mem[..layout.argsAt] + args + mem[layout.argsAt + |args|..];
    }

    /** The kernel is asked once, with the arguments in place; arguments that do not fit are refused without that.
        Without an answer the request goes back into the queue. */
    method Dispatch(r: Req) returns (answer: Option<IpcResult>, ghost turn: Turn)
      requires Valid() && batch != [] && batch[0] == r && calling && !faulted
      modifies bridge, this`mem, this`waiting, this`faulted, this`batch, this`calling, this`trace, this`log
      ensures Valid() && old(trace) <= trace && batch == old(batch)[1..] && !calling
      ensures old(bridge.issued) <= bridge.issued && Later(old(Now()), Now())
      ensures turn.req == r && !turn.dead && (turn.call.Some? <==> |r.args| <= layout.argsCap)
      ensures |log| == |old(log)| + (if turn.call.Some? then 1 else 0) && (turn.call.Some? ==> turn.call.value == |old(log)|)
      ensures turn.reply == if answer.Some? then Some(|old(bridge.answered)|) else None
      ensures TurnOk(layout, turn, Now())
      ensures turn.call.None? ==> answer == Some(ERROR)
      ensures turn.call.Some? ==> answer == if Unanswered(log[turn.call.value]) then None
                                            else Some(Reading(layout, log[turn.call.value]))
      ensures faulted ==> turn.call.Some? && log[turn.call.value].rv == None
      ensures waiting == if answer.Some? then old(waiting) else old(waiting) + [r]
      ensures bridge.answered == if answer.Some? then old(bridge.answered) + [r] else old(bridge.answered)
      ensures bridge.replies == if answer.Some? then old(bridge.replies) + [answer.value] else old(bridge.replies)
    {
      answer, turn := None, Turn(r, None, None, false);
      if |r.args| > layout.argsCap {
        answer := Some(ERROR);
      } else {
        WriteArgs(r.args);
        turn := turn.(call := Some(|log|));
        var rv, end, recovered := Call(HandleIpc(r));
        if rv.Some? && rv.value != IPC_PENDING {
          answer := Some(if rv.value < MIN_REPLY then ERROR else ReadResult(layout, mem, rv.value));
        }
      }
      if answer.Some? {
        turn := turn.(reply := Some(|bridge.answered|));
      }
      Conclude(r, answer);
    }

    /** The dispatch is over: the request is completed, or goes back into the queue. */
    method Conclude(r: Req, answer: Option<IpcResult>)
      requires Valid() && batch != [] && batch[0] == r && calling
      modifies bridge`answered, bridge`replies, this`waiting, this`batch, this`calling, this`trace
      ensures Valid() && old(trace) <= trace && batch == old(batch)[1..] && !calling
      ensures waiting == if answer.Some? then old(waiting) else old(waiting) + [r]
      ensures bridge.answered == if answer.Some? then old(bridge.answered) + [r] else old(bridge.answered)
      ensures bridge.replies == if answer.Some? then old(bridge.replies) + [answer.value] else old(bridge.replies)
    {
      ghost var was := View();
      calling, batch := false, batch[1..];
      if answer.Some? {
        bridge.Complete(r, answer.value);
        Note(was, Finish(Reply));
      } else {
        waiting := waiting + [r];
        Note(was, Finish(Pending));
      }
    }

    /** `service_ipc`: every request that was waiting has its turn, in order; those that wait on are in the same order. */
    method ServiceIpc() returns (completed: nat, ghost turns: seq<Turn>, ghost books: seq<Books>)
      requires Valid() && batch == [] && !calling
      modifies bridge, this`mem, this`waiting, this`faulted, this`batch, this`draining, this`calling, this`dropped,
               this`trace, this`log
      ensures Valid() && old(trace) <= trace && batch == [] && !calling
      ensures old(bridge.issued) <= bridge.issued
      ensures |turns| == |old(waiting)| && Sub(waiting, old(waiting))
      ensures Pass(layout, old(waiting), turns, books) && books[0] == old(Now()) && books[|turns|] == Now()
      ensures waiting == StillWaiting(turns) && completed == |Done(turns)|
    {
      ghost var was := View();
      var reqs := waiting;
      batch, draining, waiting := waiting, false, [];
      Note(was, Begin(false));
      completed, turns, books := 0, [], [Now()];
      var i := 0;
      AllOf(reqs);
      assert Done([]) == {};
      while i < |reqs|
        invariant i <= |reqs| && batch == reqs[i..] && !draining && !calling && Valid()
        invariant PartOf(waiting, reqs[i..], reqs)
        invariant old(trace) <= trace && old(bridge.issued) <= bridge.issued
        invariant |turns| == i && Pass(layout, reqs, turns, books) && books[0] == old(Now()) && books[i] == Now()
        invariant waiting == StillWaiting(turns) && completed == |Done(turns)|
      {
        KeepOrLeave(waiting, reqs, i);
        var done;
        ghost var turn;
        done, turn := ServeOne(reqs[i]);
        if done {
          completed := completed + 1;
        }
        OneMoreTurn(layout, reqs, turns, books, turn, Now());
        OneMoreOutcome(turns, turn);
        turns, books := turns + [turn], books + [Now()];
        i := i + 1;
      }
      NoneLeft(waiting, reqs);
    }

    /** New requests, in session order, behind the old ones. */
    method TakeNew() returns (any: bool)
      requires Valid() && batch == []
      modifies bridge`incoming, this`waiting, this`trace
      ensures Valid() && old(trace) <= trace
      ensures waiting == old(waiting) + Sorted(old(bridge.incoming)) && bridge.incoming == []
      ensures any <==> old(bridge.incoming) != []
      ensures forall r :: r in old(bridge.incoming) ==> r in waiting
    {
      ghost var was := View();
      SortedOrder(bridge.incoming);
      assert forall r :: r in bridge.incoming ==> r in multiset(Sorted(bridge.incoming));
      SameLength(bridge.incoming, Sorted(bridge.incoming));
      var v := bridge.TakeIncoming();
      any := v != [];
      waiting := waiting + v;
      Note(was, Take);
    }

    /** The next request in line is failed, and the children go on. */
    method Refuse(r: Req)
      requires Valid() && batch != [] && batch[0] == r && draining && !calling
      modifies bridge, this`batch, this`trace
      ensures Valid() && old(trace) <= trace && batch == old(batch)[1..]
      ensures old(bridge.issued) <= bridge.issued
      ensures bridge.answered == old(bridge.answered) + [r] && bridge.replies == old(bridge.replies) + [ERROR]
      ensures old(bridge.abandoned) <= bridge.abandoned
    {
      ghost var was := View();
      bridge.Complete(r, ERROR);
      batch := batch[1..];
      Note(was, Check);
      Children();
    }

    /** A dead kernel fails everything it holds and everything that had come in by now. */
    method Drain()
      requires Valid() && batch == [] && faulted && !calling
      modifies bridge, this`waiting, this`batch, this`draining, this`trace
      ensures Valid() && old(trace) <= trace && batch == [] && waiting == []
      ensures old(bridge.issued) <= bridge.issued
      ensures bridge.answered == old(bridge.answered) + (old(waiting) + Sorted(old(bridge.incoming)))
      ensures old(bridge.replies) <= bridge.replies && old(bridge.abandoned) <= bridge.abandoned
      ensures forall i :: |old(bridge.replies)| <= i < |bridge.replies| ==> bridge.replies[i] == ERROR
      ensures |bridge.replies| - |old(bridge.replies)| == |bridge.answered| - |old(bridge.answered)|
    {
      var _ := TakeNew();
      ghost var was := View();
      var reqs := waiting;
      waiting, batch, draining := [], waiting, true;
      Note(was, Begin(true));
      ghost var before := bridge.answered;
      var i := 0;
      assert before + reqs[..0] == before;
      while i < |reqs|
        invariant i <= |reqs| && batch == reqs[i..] && draining && waiting == [] && Valid()
        invariant bridge.answered == before + reqs[..i]
        invariant old(bridge.replies) <= bridge.replies && |bridge.replies| == |old(bridge.replies)| + i
        invariant forall k :: |old(bridge.replies)| <= k < |bridge.replies| ==> bridge.replies[k] == ERROR
        invariant old(trace) <= trace && old(bridge.issued) <= bridge.issued && old(bridge.abandoned) <= bridge.abandoned
      {
        assert before + reqs[..i] + [reqs[i]] == before + reqs[..i + 1];
        Refuse(reqs[i]);
        i := i + 1;
      }
      assert reqs[..i] == reqs;
    }

    /** Nothing that was ever asked of a dead kernel is left open. */
    method FailAll()
      requires Valid() && batch == [] && faulted && !calling
      modifies bridge, this`waiting, this`batch, this`draining, this`trace
      ensures Valid() && old(trace) <= trace && batch == [] && waiting == [] && Later(old(Now()), Now())
      ensures old(bridge.issued) <= bridge.issued
      ensures forall r :: r in old(bridge.issued) ==> r in bridge.answered || r in dropped
    {
      AllPlaced(trace, View());
      SortedOrder(bridge.incoming);
      assert forall r :: r in bridge.incoming ==> r in multiset(Sorted(bridge.incoming));
      Drain();
    }

    /** Interrupts and input: one export call each. */
    method DeliverAll(events: nat)
      requires Valid() && batch == []
      modifies bridge, this`mem, this`faulted, this`trace, this`log
      ensures Valid() && old(trace) <= trace
      ensures old(bridge.issued) <= bridge.issued && bridge.answered == old(bridge.answered)
      ensures events == 0 ==> View() == old(View()) && log == old(log)
      ensures Later(old(Now()), Now()) && old(bridge.incoming) <= bridge.incoming
      ensures !faulted ==> |log| == |old(log)| + events && forall k :: |old(log)| <= k < |log| ==> log[k].what == OnEvent
    {
      if events == 0 {
        return;
      }
      var left := events;
      while left > 0
        invariant Valid() && old(trace) <= trace && batch == []
        invariant old(bridge.issued) <= bridge.issued && bridge.answered == old(bridge.answered)
        invariant Later(old(Now()), Now()) && old(bridge.incoming) <= bridge.incoming
        invariant 0 <= left <= events
        invariant !faulted ==>
                    |log| + left == |old(log)| + events && forall k :: |old(log)| <= k < |log| ==> log[k].what == OnEvent
      {
        var _, _, _ := Call(OnEvent);
        left := left - 1;
      }
    }

    /** The tick, the pass over the queue, and another tick if something was completed. */
    method Work(now: int) returns (ghost turns: seq<Turn>, ghost books: seq<Books>)
      requires Valid() && batch == [] && !calling
      modifies bridge, this`mem, this`waiting, this`faulted, this`nextDue, this`batch, this`draining, this`calling, this`dropped,
               this`trace, this`log
      ensures Valid() && old(trace) <= trace && batch == [] && !calling && Later(old(Now()), Now())
      ensures old(bridge.issued) <= bridge.issued && nextDue >= now
      ensures |turns| == |old(waiting)| && Pass(layout, old(waiting), turns, books) && waiting == StillWaiting(turns)
      ensures AroundPass(old(Now()), books[0], books[|turns|], Now())
      ensures !faulted ==> Ticked(|old(log)|, 0, books[0].log, books[|turns|].log, Done(turns) != {}, now, log, nextDue)
    {
      var _ := Tick(now);
      turns, books := [], [Now()];
      ghost var ticked := Now();
      if waiting != [] {
        var completed;
        completed, turns, books := ServiceIpc();
        ghost var served := Now();
        LaterInPass(layout, old(waiting), turns, books, 0, |turns|);
        LaterTrans(old(Now()), ticked, served);
        if completed > 0 {
          var _ := Tick(now);
          LaterTrans(old(Now()), served, Now());
        }
      }
    }

    /** One iteration of the worker loop. `did` is what the main loop is told. After a fault the next
        iteration leaves no request that was issued before it unanswered. */
    method Step(now: int, events: nat, childEvent: bool)
      returns (did: bool, ghost queue: seq<Req>, ghost turns: seq<Turn>, ghost books: seq<Books>)
      requires Valid() && batch == [] && !calling
      modifies this, bridge
      ensures Valid() && old(trace) <= trace && batch == [] && !calling && Later(old(Now()), Now())
      ensures old(bridge.issued) <= bridge.issued
      ensures old(faulted) ==> faulted && !did && waiting == [] && nextDue == old(nextDue)
      ensures old(faulted) ==> forall r :: r in old(bridge.issued) ==> r in bridge.answered || r in dropped
      ensures !old(faulted) && did ==> nextDue >= now
      ensures !old(faulted) && !did ==>
                !faulted && nextDue == old(nextDue) > now && waiting == old(waiting) && bridge.answered == old(bridge.answered)
      ensures did <==> !old(faulted) && (events > 0 || childEvent || old(bridge.incoming) != [] || now >= old(nextDue))
      ensures did ==> old(waiting) <= queue && forall r :: r in old(bridge.incoming) ==> r in queue
      ensures did ==> |turns| == |queue| && Pass(layout, queue, turns, books) && waiting == StillWaiting(turns)
      ensures did ==> AroundPass(old(Now()), books[0], books[|turns|], Now())
      ensures did && !faulted ==> Ticked(|old(log)|, events, books[0].log, books[|turns|].log, Done(turns) != {}, now, log, nextDue)
      ensures Sim.NodeMay(now, Sim.Node(old(faulted), old(nextDue), events > 0 || childEvent || old(bridge.incoming) != []),
                          Sim.NodeStep(did, Sim.Node(faulted, nextDue, false)))
    {
      did, queue, turns, books := false, [], [], [];
      if faulted {
        FailAll();
        return;
      }
      DeliverAll(events);
      var newReq := TakeNew();
      did := events > 0 || childEvent || newReq || now >= nextDue;
      if did {
        ghost var before := Now();
        queue := waiting;
        turns, books := Work(now);
        LaterTrans(old(Now()), before, books[0]);
        LaterTrans(old(Now()), before, Now());
      } else {
        assert Sorted([]) == [];
      }
    }
  }
}
