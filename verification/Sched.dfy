/** The scheduler (`Sched`): who runs, who sleeps until when, and the virtual time; one critical section per operation. */
module Sched {
  import opened Prelude

  type ActorId = nat

  datatype Actor = Actor(blocked: bool, deadline: Option<int>)

  datatype State = State(nextId: nat, actors: map<ActorId, Actor>, busy: int, events: nat, now: int)

  // ------------------------------------------------------------ the critical sections

  function Register(s: State): State {
    s.(nextId := s.nextId + 1, actors := s.actors[s.nextId := Actor(false, None)], busy := s.busy + 1)
  }

  function Exit(s: State, id: ActorId): State {
    s.(actors := s.actors - {id}, events := s.events + 1,
       busy := if id in s.actors && !s.actors[id].blocked then s.busy - 1 else s.busy)
  }

  function Unblock(s: State, id: ActorId): State {
    if id in s.actors && s.actors[id].blocked
    then s.(actors := s.actors[id := Actor(false, None)], busy := s.busy + 1)
    else s
  }

  function UnblockAll(s: State, ids: seq<ActorId>): State
    decreases ids
  {
    if ids == [] then s else UnblockAll(Unblock(s, ids[0]), ids[1..])
  }

  function WakeAll(s: State, ids: seq<ActorId>): State {
    if ids == [] then s else var t := UnblockAll(s, ids); t.(events := t.events + 1)
  }

  /** The last part of one round of `wait`: not ready, not timed out, so go to sleep. */
  function Block(s: State, id: ActorId, deadline: Option<int>): State {
    if id !in s.actors then s
    else if s.actors[id].blocked then s.(actors := s.actors[id := Actor(true, deadline)])
    else s.(actors := s.actors[id := Actor(true, deadline)], busy := s.busy - 1, events := s.events + 1)
  }

  function Due(s: State, now: int): set<ActorId> {
    set a | a in s.actors && s.actors[a].blocked && s.actors[a].deadline.Some? && s.actors[a].deadline.value <= now
  }

  function Max(a: int, b: int): int { if a < b then b else a }

  /** Release the blocked actors `ids`. */
  function Release(s: State, ids: set<ActorId>): State {
    s.(busy := s.busy + |ids|,
       actors := map a | a in s.actors :: if a in ids then Actor(false, None) else s.actors[a])
  }

  function AdvanceTo(s: State, t: int): State {
    var now := Max(s.now, t);
    Release(s, Due(s, now)).(now := now, events := s.events + 1)
  }

  // ------------------------------------------------------------ the invariant

  function Running(s: State): set<ActorId> {
    set a | a in s.actors && !s.actors[a].blocked
  }

  ghost predicate Counted(s: State) { s.busy == |Running(s)| }

  /** `busy` counts the running actors, ids are never reused, and no blocked deadline has passed. */
  ghost predicate Inv(s: State) {
    && Counted(s)
    && (forall a :: a in s.actors ==> a < s.nextId)
    && (forall a :: a in s.actors && s.actors[a].blocked && s.actors[a].deadline.Some? ==> s.now < s.actors[a].deadline.value)
  }

  /** The new actor's id is in use by nobody, and the others stay as they are. */
  lemma RegisterInv(s: State)
    requires Inv(s)
    ensures Inv(Register(s))
    ensures s.nextId !in s.actors && Register(s).actors.Keys == s.actors.Keys + {s.nextId}
    ensures forall a :: a in s.actors ==> Register(s).actors[a] == s.actors[a]
    ensures Register(s).actors[s.nextId] == Actor(false, None) && s.nextId in Running(Register(s))
    ensures Register(s).busy == s.busy + 1 && Register(s).now == s.now
  {
    assert Running(Register(s)) == Running(s) + {s.nextId};
  }

  lemma ExitInv(s: State, id: ActorId)
    requires Inv(s)
    ensures Inv(Exit(s, id)) && Exit(s, id).now == s.now && Exit(s, id).nextId == s.nextId
    ensures id !in Exit(s, id).actors && Exit(s, id).actors.Keys == s.actors.Keys - {id}
    ensures forall a :: a in s.actors && a != id ==> Exit(s, id).actors[a] == s.actors[a]
    ensures Exit(s, id).busy == s.busy - if id in Running(s) then 1 else 0
  {
    assert Running(Exit(s, id)) == Running(s) - {id};
  }

  lemma UnblockInv(s: State, id: ActorId)
    requires Counted(s)
    ensures Counted(Unblock(s, id))
    ensures Inv(s) ==> Inv(Unblock(s, id))
    ensures id in s.actors ==> Unblock(s, id).actors[id].blocked == false
    ensures Unblock(s, id).busy == s.busy + if id in s.actors && id !in Running(s) then 1 else 0
  {
    if id in s.actors && s.actors[id].blocked {
      assert Running(Unblock(s, id)) == Running(s) + {id};
    }
  }

  /** The actor sleeps until the deadline and is no longer counted; everybody else stays. */
  lemma BlockInv(s: State, id: ActorId, deadline: Option<int>)
    requires Inv(s)
    requires deadline.Some? ==> s.now < deadline.value
    ensures Inv(Block(s, id, deadline)) && Block(s, id, deadline).now == s.now
    ensures Block(s, id, deadline).actors.Keys == s.actors.Keys && id !in Running(Block(s, id, deadline))
    ensures id in s.actors ==> Block(s, id, deadline).actors[id].blocked && Block(s, id, deadline).actors[id].deadline == deadline
    ensures forall a :: a in s.actors && a != id ==> Block(s, id, deadline).actors[a] == s.actors[a]
    ensures Block(s, id, deadline).busy == s.busy - if id in Running(s) then 1 else 0
  {
    assert id in s.actors ==> Running(Block(s, id, deadline)) == Running(s) - {id};
  }

  lemma AdvanceInv(s: State, t: int)
    requires Inv(s)
    ensures Inv(AdvanceTo(s, t)) && AdvanceTo(s, t).now >= s.now && AdvanceTo(s, t).now >= t
    ensures AdvanceTo(s, t).now == s.now || AdvanceTo(s, t).now == t
    ensures AdvanceTo(s, t).actors.Keys == s.actors.Keys
    ensures forall a :: a in s.actors ==>
      if s.actors[a].blocked && s.actors[a].deadline.Some? && s.actors[a].deadline.value <= t
      then !AdvanceTo(s, t).actors[a].blocked else AdvanceTo(s, t).actors[a] == s.actors[a]
  {
    var due := Due(s, Max(s.now, t));
    assert Running(AdvanceTo(s, t)) == Running(s) + due;
    assert Running(s) !! due;
  }

  /** Exactly the named actors are released; everything else stays as it was. */
  lemma {:induction false} UnblockAllEffect(s: State, ids: seq<ActorId>)
    ensures UnblockAll(s, ids).actors.Keys == s.actors.Keys
    ensures UnblockAll(s, ids).now == s.now && UnblockAll(s, ids).nextId == s.nextId
    ensures forall a :: a in s.actors ==>
      UnblockAll(s, ids).actors[a] == if a in ids && s.actors[a].blocked then Actor(false, None) else s.actors[a]
    ensures UnblockAll(s, ids).events == s.events
    ensures Counted(s) ==> Counted(UnblockAll(s, ids))
    ensures Inv(s) ==> Inv(UnblockAll(s, ids))
    decreases ids
  {
    if ids != [] {
      if Counted(s) { UnblockInv(s, ids[0]); }
      UnblockAllEffect(Unblock(s, ids[0]), ids[1..]);
      assert forall a :: a in ids <==> a == ids[0] || a in ids[1..];
    }
  }

  lemma WakeAllEffect(s: State, ids: seq<ActorId>)
    ensures WakeAll(s, ids).actors.Keys == s.actors.Keys
    ensures WakeAll(s, ids).now == s.now && WakeAll(s, ids).nextId == s.nextId
    ensures forall a :: a in s.actors ==>
      WakeAll(s, ids).actors[a] == if a in ids && s.actors[a].blocked then Actor(false, None) else s.actors[a]
    ensures Inv(s) ==> Inv(WakeAll(s, ids))
  {
    UnblockAllEffect(s, ids);
    var t := UnblockAll(s, ids);
    assert Running(t.(events := t.events + 1)) == Running(t);
  }

  // ------------------------------------------------------------ deadlines

  /** `d` is the earliest deadline among the blocked actors (`None`: there is no deadline). */
  ghost predicate IsNextDeadline(s: State, d: Option<int>) {
    && (d.Some? ==> exists a :: a in s.actors && s.actors[a].blocked && s.actors[a].deadline == d)
    && (forall a :: a in s.actors && s.actors[a].blocked && s.actors[a].deadline.Some? ==>
                      d.Some? && d.value <= s.actors[a].deadline.value)
  }

  /** If the clock moves no further than the next deadline, every sleeper is released at exactly its deadline. */
  lemma ReleasedOnTime(s: State, d: Option<int>, t: int, a: ActorId)
    requires Inv(s) && IsNextDeadline(s, d) && (d.Some? ==> t <= d.value)
    requires a in s.actors && s.actors[a].blocked
    ensures AdvanceTo(s, t).now >= s.now
    ensures !AdvanceTo(s, t).actors[a].blocked <==> s.actors[a].deadline == Some(AdvanceTo(s, t).now)
    ensures AdvanceTo(s, t).actors[a].blocked ==> AdvanceTo(s, t).actors[a] == s.actors[a]
  {
  }

  // ------------------------------------------------------------ the object

  datatype Wake = Ready | Timeout | Asleep

  /** `Sched` in virtual mode. Each method is one critical section. */
  class Scheduler {
    var nextId: nat
    var actors: map<ActorId, Actor>
    var busy: nat
    var events: nat
    var now: int

    ghost function St(): State
      reads this
    {
      State(nextId, actors, busy, events, now)
    }

    ghost predicate Valid()
      reads this
    {
      Inv(St())
    }

    constructor (epoch: int)
      ensures Valid() && St() == State(1, map[], 0, 0, epoch)
    {
      nextId, actors, busy, events, now := 1, map[], 0, 0, epoch;
      new;
      assert Running(St()) == {};
    }

    method DoRegister() returns (id: ActorId)
      requires Valid()
      modifies this
      ensures Valid() && St() == Register(old(St())) && id == old(nextId) && id !in old(actors)
    {
      RegisterInv(St());
      id := nextId;
      nextId := nextId + 1;
      actors := actors[id := Actor(false, None)];
      busy := busy + 1;
    }

    method DoExit(id: ActorId)
      requires Valid()
      modifies this
      ensures Valid() && St() == Exit(old(St()), id)
    {
      ExitInv(St(), id);
      if id in actors {
        var a := actors[id];
        actors := actors - {id};
        if !a.blocked {
          RunningIsBusy(old(St()), id);
          busy := busy - 1;
        }
      } else {
        assert actors - {id} == actors;
      }
      events := events + 1;
    }

    method DoUnblock(id: ActorId)
      modifies this`actors, this`busy
      ensures St() == Unblock(old(St()), id)
    {
      var flipped := false;
      if id in actors && actors[id].blocked {
        actors := actors[id := Actor(false, None)];
        flipped := true;
      }
      if flipped {
        busy := busy + 1;
      }
    }

    /** One round of `wait` with what `ready()` answered. `Asleep`: the actor sleeps until something
        happens and then takes another round. */
    method WaitRound(id: ActorId, deadline: Option<int>, ready: bool) returns (w: Wake)
      requires Valid()
      modifies this
      ensures Valid()
      ensures w.Ready? <==> ready
      ensures w.Timeout? <==> !ready && deadline.Some? && deadline.value <= old(now)
      ensures St() == if w.Asleep? then Block(old(St()), id, deadline) else Unblock(old(St()), id)
      ensures actors.Keys == old(actors).Keys && now == old(now)
      ensures forall a :: a in old(actors) && a != id ==> actors[a] == old(actors)[a]
      ensures id in old(actors) ==> if w.Asleep? then actors[id] == Actor(true, deadline) else !actors[id].blocked
      ensures id in old(actors) ==>
        busy == old(busy) - (if old(actors)[id].blocked then 0 else 1) + (if w.Asleep? then 0 else 1)
    {
      UnblockInv(St(), id);
      RunningMeans(St(), id);
      if ready {
        DoUnblock(id);
        return Wake.Ready;
      }
      if deadline.Some? && now >= deadline.value {
        DoUnblock(id);
        return Timeout;
      }
      BlockInv(St(), id, deadline);
      var newly := false;
      if id in actors {
        newly := !actors[id].blocked;
        if newly {
          RunningIsBusy(St(), id);
        }
        actors := actors[id := Actor(true, deadline)];
      }
      if newly {
        busy := busy - 1;
        events := events + 1;
      }
      w := Asleep;
    }

    method DoUnblockAll(ids: seq<ActorId>)
      modifies this`actors, this`busy
      ensures St() == UnblockAll(old(St()), ids)
    {
      var i := 0;
      while i < |ids|
        invariant i <= |ids|
        invariant UnblockAll(St(), ids[i..]) == UnblockAll(old(St()), ids)
      {
        assert ids[i..][1..] == ids[i + 1..];
        DoUnblock(ids[i]);
        i := i + 1;
      }
    }

    method DoWakeAll(ids: seq<ActorId>)
      requires Valid()
      modifies this
      ensures Valid() && St() == WakeAll(old(St()), ids)
    {
      if ids == [] {
        return;
      }
      WakeAllEffect(St(), ids);
      DoUnblockAll(ids);
      events := events + 1;
    }

    method NextActorDeadline() returns (d: Option<int>)
      ensures IsNextDeadline(St(), d)
    {
      var todo := actors.Keys;
      d := None;
      while todo != {}
        invariant todo <= actors.Keys
        invariant d.Some? ==> exists a :: a in actors && actors[a].blocked && actors[a].deadline == d
        invariant forall a :: a in actors.Keys - todo && actors[a].blocked && actors[a].deadline.Some? ==>
                                d.Some? && d.value <= actors[a].deadline.value
        decreases |todo|
      {
        var a :| a in todo;
        todo := todo - {a};
        if actors[a].blocked && actors[a].deadline.Some? && (d.None? || actors[a].deadline.value < d.value) {
          d := actors[a].deadline;
        }
      }
    }

    /** The blocked actors whose deadline is no later than now. */
    method CollectDue() returns (due: seq<ActorId>)
      ensures forall a :: a in due <==> a in Due(St(), now)
    {
      due := [];
      var todo := actors.Keys;
      while todo != {}
        invariant todo <= actors.Keys
        invariant forall a :: a in due <==> a in Due(St(), now) && a !in todo
        decreases |todo|
      {
        var a :| a in todo;
        todo := todo - {a};
        if actors[a].blocked && actors[a].deadline.Some? && actors[a].deadline.value <= now {
          due := due + [a];
        }
      }
    }

    method DoAdvanceTo(t: int)
      requires Valid()
      modifies this
      ensures Valid() && St() == AdvanceTo(old(St()), t)
    {
      AdvanceInv(St(), t);
      if t > now {
        now := t;
      }
      var due := CollectDue();
      UnblockAllEffect(St(), due);
      assert Running(St()) == Running(old(St()));
      DoUnblockAll(due);
      events := events + 1;
      assert actors == AdvanceTo(old(St()), t).actors;
      assert Running(St()) == Running(AdvanceTo(old(St()), t));
    }
  }

  lemma RunningMeans(s: State, id: ActorId)
    ensures id in Running(s) <==> id in s.actors && !s.actors[id].blocked
  {
  }

  lemma RunningIsBusy(s: State, id: ActorId)
    requires Inv(s) && id in s.actors && !s.actors[id].blocked
    ensures s.busy > 0
  {
    assert id in Running(s);
  }
}
