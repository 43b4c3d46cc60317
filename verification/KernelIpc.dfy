/** Child requests on their way through the bridge and the kernel loop (`IpcBridge`, `Kernel.step`,
    `Kernel.service_ipc`). What the kernel export answers is arbitrary. */
module KernelIpc {
  import opened Prelude

  /** One call; `id` tells calls apart, `session` is the caller's process. */
  datatype Req = Req(id: nat, session: int, args: seq<byte>)

  // ------------------------------------------------------------ the order of new requests

  function Insert(r: Req, s: seq<Req>): seq<Req> {
    if s == [] || r.session <= s[0].session then [r] + s else [s[0]] + Insert(r, s[1..])
  }

  /** `sort_by_key(session)`, stable. */
  function Sorted(s: seq<Req>): seq<Req> {
    if s == [] then [] else Insert(s[0], Sorted(s[1..]))
  }

  predicate InOrder(s: seq<Req>) {
    forall i, j :: 0 <= i < j < |s| ==> s[i].session <= s[j].session
  }

  predicate DistinctSessions(s: seq<Req>) {
    forall i, j :: 0 <= i < j < |s| ==> s[i].session != s[j].session
  }

  lemma {:induction false} InsertMembers(r: Req, s: seq<Req>)
    ensures multiset(Insert(r, s)) == multiset{r} + multiset(s)
  {
    if s != [] && r.session > s[0].session {
      InsertMembers(r, s[1..]);
      assert s == [s[0]] + s[1..];
    }
  }

  lemma {:induction false} InsertOrder(r: Req, s: seq<Req>)
    requires InOrder(s)
    ensures InOrder(Insert(r, s))
  {
    if s != [] && r.session > s[0].session {
      InsertOrder(r, s[1..]);
      InsertAbove(r, s[1..], s[0].session);
    }
  }

  lemma {:induction false} InsertAbove(r: Req, s: seq<Req>, low: int)
    requires low <= r.session && forall i :: 0 <= i < |s| ==> low <= s[i].session
    ensures forall j :: 0 <= j < |Insert(r, s)| ==> low <= Insert(r, s)[j].session
  {
    if s != [] && r.session > s[0].session { InsertAbove(r, s[1..], low); }
  }

  lemma {:induction false} SortedOrder(s: seq<Req>)
    ensures InOrder(Sorted(s)) && multiset(Sorted(s)) == multiset(s)
  {
    if s != [] {
      SortedOrder(s[1..]);
      InsertOrder(s[0], Sorted(s[1..]));
      InsertMembers(s[0], Sorted(s[1..]));
      assert s == [s[0]] + s[1..];
    }
  }

  lemma SameLength(a: seq<Req>, b: seq<Req>)
    requires multiset(a) == multiset(b)
    ensures |a| == |b|
  {
    assert |multiset(a)| == |a| && |multiset(b)| == |b|;
  }

  lemma FirstIsSame(a: seq<Req>, b: seq<Req>)
    requires InOrder(a) && InOrder(b) && DistinctSessions(a) && multiset(a) == multiset(b) && a != [] && b != []
    ensures a[0] == b[0]
  {
    assert a[0] in multiset(b) && b[0] in multiset(a);
    var i :| 0 <= i < |b| && b[i] == a[0];
    var j :| 0 <= j < |a| && a[j] == b[0];
    assert b[0].session <= b[i].session && a[0].session <= a[j].session;
  }

  lemma TailMembers(a: seq<Req>)
    requires a != []
    ensures multiset(a[1..]) == multiset(a) - multiset{a[0]}
  {
    assert a == [a[0]] + a[1..];
  }

  lemma {:induction false} OrderedUnique(a: seq<Req>, b: seq<Req>)
    requires InOrder(a) && InOrder(b) && DistinctSessions(a) && DistinctSessions(b) && multiset(a) == multiset(b)
    ensures a == b
  {
    SameLength(a, b);
    if a != [] {
      FirstIsSame(a, b);
      TailMembers(a);
      TailMembers(b);
      OrderedUnique(a[1..], b[1..]);
      assert a == [a[0]] + a[1..] && b == [b[0]] + b[1..];
    }
  }

  lemma DistinctAnyOrder(a: seq<Req>, b: seq<Req>)
    requires multiset(a) == multiset(b) && DistinctSessions(a)
    ensures DistinctSessions(b)
  {
    SameLength(a, b);
    forall i, j | 0 <= i < j < |b| && b[i].session == b[j].session ensures false {
      assert b[i] in multiset(a) && b[j] in multiset(a);
      var k :| 0 <= k < |a| && a[k] == b[i];
      var l :| 0 <= l < |a| && a[l] == b[j];
      assert k == l;
      Twice(b, i, j);
      Once(a, k);
    }
  }

  lemma Twice(s: seq<Req>, i: nat, j: nat)
    requires i < j < |s| && s[i] == s[j]
    ensures multiset(s)[s[i]] >= 2
  {
    assert s == s[..j] + [s[j]] + s[j + 1..];
    assert s[i] in s[..j];
  }

  lemma Once(s: seq<Req>, k: nat)
    requires k < |s| && DistinctSessions(s)
    ensures multiset(s)[s[k]] == 1
  {
    assert s == s[..k] + [s[k]] + s[k + 1..];
    assert s[k] !in s[..k] && s[k] !in s[k + 1..];
  }

  /** The order of new requests does not depend on the order in which the child threads pushed them. */
  lemma TakeIsDeterministic(a: seq<Req>, b: seq<Req>)
    requires multiset(a) == multiset(b) && DistinctSessions(a)
    ensures Sorted(a) == Sorted(b)
  {
    SortedOrder(a);
    SortedOrder(b);
    DistinctAnyOrder(a, Sorted(a));
    DistinctAnyOrder(a, Sorted(b));
    OrderedUnique(Sorted(a), Sorted(b));
  }

  // ------------------------------------------------------------ critical sections

  /** `issued`: every call so far. `waiting`: the kernel's queue. `batch`: what the running service or
      drain loop still has to look at; `calling`: its first request is being dispatched.
      `answered`, `dropped`: completed and discarded, in order. */
  datatype St = St(issued: seq<Req>, incoming: seq<Req>, waiting: seq<Req>, batch: seq<Req>, draining: bool,
                   calling: bool, answered: seq<Req>, dropped: seq<Req>, abandoned: set<nat>, faulted: bool)

  /** What one `dispatch` came to. `Trap`: the call killed the kernel. */
  datatype End = Pending | Reply | Trap

  datatype Step =
    | Push(session: int, args: seq<byte>)
    | GiveUp(id: nat)
    | Take
    | Begin(drain: bool)
    | Check
    | Finish(end: End)
    | Fault

  function Init(): St { St([], [], [], [], false, false, [], [], {}, false) }

  /** What the kernel still has in hand, in its order. */
  function Held(s: St): seq<Req> { s.waiting + s.batch }

  function All(s: St): seq<Req> { s.incoming + s.waiting + s.batch + s.answered + s.dropped }

  /** A child thread makes one call at a time, so a session with a request under way issues no other. */
  predicate Free(s: St, session: int) {
    forall i :: 0 <= i < |Held(s) + s.incoming| ==> (Held(s) + s.incoming)[i].session != session
  }

  predicate Enabled(s: St, st: Step) {
    match st
    case Push(session, _) => Free(s, session)
    case GiveUp(id) => id < |s.issued|
    case Take => s.batch == []
    case Begin(drain) => s.batch == [] && (drain ==> s.faulted)
    case Check => s.batch != [] && !s.calling
    case Finish(_) => s.batch != [] && s.calling
    case Fault => true
  }

  /** `complete`: the caller gets its answer. */
  function Answer(s: St): St
    requires s.batch != []
  {
    s.(batch := s.batch[1..], calling := false, answered := s.answered + [s.batch[0]])
  }

  function Drop(s: St): St
    requires s.batch != []
  {
    s.(batch := s.batch[1..], calling := false, dropped := s.dropped + [s.batch[0]])
  }

  /** Not answered now: back into the queue. */
  function Keep(s: St, fault: bool): St
    requires s.batch != []
  {
    s.(batch := s.batch[1..], calling := false, waiting := s.waiting + [s.batch[0]], faulted := s.faulted || fault)
  }

  function Next(s: St, st: Step): St
    requires Enabled(s, st)
  {
    match st
    case Push(session, args) =>
      var r := Req(|s.issued|, session, args);
      s.(issued := s.issued + [r], incoming := s.incoming + [r])
    case GiveUp(id) => s.(abandoned := s.abandoned + {id})
    case Take => s.(waiting := s.waiting + Sorted(s.incoming), incoming := [])
    case Begin(drain) => s.(waiting := [], batch := s.waiting, draining := drain)
    case Check =>
      if s.draining then Answer(s)
      else if s.batch[0].id in s.abandoned then Drop(s)
      else if s.faulted then Answer(s)
      else s.(calling := true)
    case Finish(end) => if end.Reply? then Answer(s) else Keep(s, end.Trap?)
    case Fault => s.(faulted := true)
  }

  // ------------------------------------------------------------ conservation

  ghost predicate Conserved(s: St) {
    && multiset(All(s)) == multiset(s.issued)
    && (forall i :: 0 <= i < |s.issued| ==> s.issued[i].id == i)
    && DistinctSessions(Held(s) + s.incoming)
    && (forall i :: 0 <= i < |s.dropped| ==> s.dropped[i].id in s.abandoned)
  }

  lemma Parts(s: St)
    ensures multiset(All(s)) ==
            multiset(s.incoming) + multiset(s.waiting) + multiset(s.batch) + multiset(s.answered) + multiset(s.dropped)
    ensures multiset(Held(s) + s.incoming) == multiset(s.waiting) + multiset(s.batch) + multiset(s.incoming)
  {
  }

  lemma HeadTail(b: seq<Req>)
    requires b != []
    ensures multiset(b) == multiset{b[0]} + multiset(b[1..])
  {
    assert b == [b[0]] + b[1..];
  }

  lemma DistinctWithout(a: seq<Req>, b: seq<Req>, c: seq<Req>)
    requires b != [] && DistinctSessions(a + b + c)
    ensures DistinctSessions(a + b[1..] + c)
  {
    var t, u := a + b + c, a + b[1..] + c;
    assert forall i :: 0 <= i < |u| ==> u[i] == t[if i < |a| then i else i + 1];
  }

  lemma MoveHead(a: seq<Req>, b: seq<Req>)
    requires b != []
    ensures a + [b[0]] + b[1..] == a + b
  {
  }

  lemma AnswerKeeps(s: St)
    requires Conserved(s) && s.batch != []
    ensures Conserved(Answer(s))
  {
    Parts(s);
    Parts(Answer(s));
    HeadTail(s.batch);
    DistinctWithout(s.waiting, s.batch, s.incoming);
  }

  lemma DropKeeps(s: St)
    requires Conserved(s) && s.batch != [] && s.batch[0].id in s.abandoned
    ensures Conserved(Drop(s))
  {
    Parts(s);
    Parts(Drop(s));
    HeadTail(s.batch);
    DistinctWithout(s.waiting, s.batch, s.incoming);
  }

  lemma KeepKeeps(s: St, fault: bool)
    requires Conserved(s) && s.batch != []
    ensures Conserved(Keep(s, fault)) && Held(Keep(s, fault)) == Held(s)
  {
    Parts(s);
    Parts(Keep(s, fault));
    HeadTail(s.batch);
    MoveHead(s.waiting, s.batch);
  }

  lemma ServeKeeps(s: St, st: Step)
    requires Conserved(s) && (st.Check? || st.Finish?) && Enabled(s, st)
    ensures Conserved(Next(s, st))
  {
    var s' := Next(s, st);
    if s' == Answer(s) {
      AnswerKeeps(s);
    } else if st.Finish? {
      KeepKeeps(s, st.end.Trap?);
    } else if s.batch[0].id in s.abandoned {
      DropKeeps(s);
    }
  }

  lemma BeginKeeps(s: St, drain: bool)
    requires Conserved(s) && s.batch == [] && (drain ==> s.faulted)
    ensures Conserved(Next(s, Begin(drain))) && Held(Next(s, Begin(drain))) == Held(s)
  {
    assert Held(Next(s, Begin(drain))) == Held(s);
    Parts(s);
    Parts(Next(s, Begin(drain)));
  }

  lemma TakeKeeps(s: St)
    requires Conserved(s) && s.batch == []
    ensures Conserved(Next(s, Take))
  {
    var s' := Next(s, Take);
    Parts(s);
    Parts(s');
    SortedOrder(s.incoming);
    DistinctAnyOrder(Held(s) + s.incoming, Held(s') + s'.incoming);
  }

  lemma PushKeeps(s: St, session: int, args: seq<byte>)
    requires Conserved(s) && Free(s, session)
    ensures Conserved(Next(s, Push(session, args)))
  {
    var s' := Next(s, Push(session, args));
    Parts(s);
    Parts(s');
    assert Held(s') + s'.incoming == Held(s) + s.incoming + [Req(|s.issued|, session, args)];
  }

  lemma StepKeeps(s: St, st: Step)
    requires Conserved(s) && Enabled(s, st)
    ensures Conserved(Next(s, st))
  {
    match st
    case Push(session, args) => PushKeeps(s, session, args);
    case Take => TakeKeeps(s);
    case Check => ServeKeeps(s, st);
    case Finish(_) => ServeKeeps(s, st);
    case Begin(drain) => BeginKeeps(s, drain);
    case GiveUp(_) =>
    case Fault =>
  }

  predicate CanRun(s: St, steps: seq<Step>)
    decreases steps
  {
    steps == [] || (Enabled(s, steps[0]) && CanRun(Next(s, steps[0]), steps[1..]))
  }

  function After(s: St, steps: seq<Step>): St
    requires CanRun(s, steps)
    decreases steps
  {
    if steps == [] then s else After(Next(s, steps[0]), steps[1..])
  }

  lemma {:induction false} RunKeeps(s: St, steps: seq<Step>)
    requires Conserved(s) && CanRun(s, steps)
    ensures Conserved(After(s, steps))
    decreases steps
  {
    if steps != [] {
      StepKeeps(s, steps[0]);
      RunKeeps(Next(s, steps[0]), steps[1..]);
    }
  }

  lemma {:induction false} IssuedOnce(issued: seq<Req>, r: Req)
    requires forall i, j :: 0 <= i < j < |issued| ==> issued[i].id != issued[j].id
    ensures multiset(issued)[r] == if r in issued then 1 else 0
  {
    if issued != [] {
      IssuedOnce(issued[1..], r);
      HeadTail(issued);
    }
  }

  /** Over every run each request is in exactly one place, is answered at most once, and is only dropped
      if its caller gave up. */
  lemma ExactlyOnePlace(steps: seq<Step>, r: Req)
    requires CanRun(Init(), steps)
    ensures var s := After(Init(), steps);
      && multiset(s.incoming)[r] + multiset(Held(s))[r] + multiset(s.answered)[r] + multiset(s.dropped)[r]
           == (if r in s.issued then 1 else 0)
      && (r in s.dropped ==> r.id in s.abandoned)
  {
    RunKeeps(Init(), steps);
    var s := After(Init(), steps);
    Parts(s);
    IssuedOnce(s.issued, r);
  }

  /** Where a run comes from `s` by first `st` and then `rest`. */
  lemma FirstThen(s: St, st: Step, rest: seq<Step>)
    requires Enabled(s, st) && CanRun(Next(s, st), rest)
    ensures CanRun(s, [st] + rest) && After(s, [st] + rest) == After(Next(s, st), rest)
  {
    assert ([st] + rest)[1..] == rest;
  }

  /** A call of a child whose session is free, taken and looked at by an idle live kernel. */
  function Called(s: St, session: int, args: seq<byte>): St
    requires Free(s, session) && s.batch == []
  {
    Next(Next(Next(s, Push(session, args)), Take), Begin(false))
  }

  lemma CallIsLookedAt(session: int, args: seq<byte>)
    ensures Free(Init(), session)
    ensures var r, s := Req(0, session, args), Called(Init(), session, args);
      s == Init().(issued := [r], batch := [r])
  {
    var r := Req(0, session, args);
    assert Sorted([]) == [];
    assert [r][1..] == [];
    assert Sorted([r]) == [r];
    var s1 := Next(Init(), Push(session, args));
    assert s1.issued == [r] && s1.incoming == [r];
    assert Next(s1, Take).waiting == [r];
  }

  /** The three ways of one call: answered, waiting on, or dropped because the caller gave up. */
  lemma LifeOfACall(session: int, args: seq<byte>)
    ensures Free(Init(), session)
    ensures var r, s := Req(0, session, args), Called(Init(), session, args);
      && CanRun(s, [Check, Finish(Reply)]) && After(s, [Check, Finish(Reply)]).answered == [r]
      && CanRun(s, [Check, Finish(Pending)]) && After(s, [Check, Finish(Pending)]).waiting == [r]
      && CanRun(s, [GiveUp(0), Check]) && After(s, [GiveUp(0), Check]).dropped == [r]
      && CanRun(s, [Fault, Check]) && After(s, [Fault, Check]).answered == [r]
  {
    CallIsLookedAt(session, args);
    var s := Called(Init(), session, args);
    TwoThen(s, Check, Finish(Reply));
    TwoThen(s, Check, Finish(Pending));
    TwoThen(s, GiveUp(0), Check);
    TwoThen(s, Fault, Check);
  }

  lemma TwoThen(s: St, x: Step, y: Step)
    requires Enabled(s, x) && Enabled(Next(s, x), y)
    ensures CanRun(s, [x, y]) && After(s, [x, y]) == Next(Next(s, x), y)
  {
    FirstThen(Next(s, x), y, []);
    assert [y] + [] == [y];
    FirstThen(s, x, [y]);
    assert [x] + [y] == [x, y];
  }

  // ------------------------------------------------------------ order

  /** `a` is `b` with some elements left out. */
  predicate Sub(a: seq<Req>, b: seq<Req>) {
    a == [] || (b != [] && ((a[0] == b[0] && Sub(a[1..], b[1..])) || Sub(a, b[1..])))
  }

  /** Each element of `a` has its own place in `b`, in the same order. */
  lemma {:induction false} SubMeaning(a: seq<Req>, b: seq<Req>) returns (at: seq<nat>)
    requires Sub(a, b)
    ensures |at| == |a| && forall i :: 0 <= i < |a| ==> at[i] < |b| && b[at[i]] == a[i]
    ensures forall i, j :: 0 <= i < j < |a| ==> at[i] < at[j]
    decreases b
  {
    at := [];
    if a != [] {
      var rest;
      if a[0] == b[0] && Sub(a[1..], b[1..]) {
        rest := SubMeaning(a[1..], b[1..]);
        at := [0] + seq(|rest|, i requires 0 <= i < |rest| => rest[i] + 1);
      } else {
        rest := SubMeaning(a, b[1..]);
        at := seq(|rest|, i requires 0 <= i < |rest| => rest[i] + 1);
      }
    }
  }

  lemma {:induction false} SubSelf(a: seq<Req>)
    ensures Sub(a, a)
  {
    if a != [] { SubSelf(a[1..]); }
  }

  lemma {:induction false} SubWithout(a: seq<Req>, i: nat, w: seq<Req>)
    requires i < |a| && Sub(a, w)
    ensures Sub(a[..i] + a[i + 1..], w)
    decreases w
  {
    var t := a[..i] + a[i + 1..];
    if a[0] == w[0] && Sub(a[1..], w[1..]) {
      if i == 0 {
        assert t == a[1..];
        SubWeaken(t, w);
      } else {
        SubWithout(a[1..], i - 1, w[1..]);
        assert t[1..] == a[1..][..i - 1] + a[1..][i..];
      }
    } else {
      SubWithout(a, i, w[1..]);
    }
  }

  lemma SubWeaken(a: seq<Req>, w: seq<Req>)
    requires w != [] && Sub(a, w[1..])
    ensures Sub(a, w)
  {
  }

  predicate NoneIn(a: seq<Req>, b: seq<Req>) {
    forall i :: 0 <= i < |a| ==> a[i] !in b
  }

  /** The first `k` requests in hand are old ones in their old order; the others came after `old`. */
  ghost predicate InLine(had: seq<Req>, s: St, k: nat) {
    && k <= |Held(s)|
    && Sub(Held(s)[..k], had)
    && NoneIn(Held(s)[k..], had)
    && NoneIn(s.incoming, had)
    && forall i :: 0 <= i < |had| ==> had[i] in s.issued
  }

  lemma LineWithout(had: seq<Req>, h: seq<Req>, k: nat, i: nat) returns (k': nat)
    requires k <= |h| && i < |h| && Sub(h[..k], had) && NoneIn(h[k..], had)
    ensures var t := h[..i] + h[i + 1..];
      k' <= |t| && Sub(t[..k'], had) && NoneIn(t[k'..], had)
  {
    var t := h[..i] + h[i + 1..];
    if i < k {
      SubWithout(h[..k], i, had);
      k' := k - 1;
      assert t[..k'] == h[..k][..i] + h[..k][i + 1..];
      assert t[k'..] == h[k..];
    } else {
      k' := k;
      assert t[..k'] == h[..k];
      assert forall j :: 0 <= j < |t[k..]| ==> t[k..][j] == h[k..][if j + k < i then j else j + 1];
    }
  }

  /** A request that leaves keeps the rest in line. */
  lemma LeaveInLine(had: seq<Req>, s: St, s': St, k: nat) returns (k': nat)
    requires s.batch != [] && InLine(had, s, k)
    requires s' == Answer(s) || s' == Drop(s)
    ensures InLine(had, s', k')
  {
    assert Held(s') == Held(s)[..|s.waiting|] + Held(s)[|s.waiting| + 1..];
    k' := LineWithout(had, Held(s), k, |s.waiting|);
  }

  lemma LineMore(had: seq<Req>, h: seq<Req>, k: nat, more: seq<Req>)
    requires k <= |h| && Sub(h[..k], had) && NoneIn(h[k..], had) && NoneIn(more, had)
    ensures Sub((h + more)[..k], had) && NoneIn((h + more)[k..], had)
  {
    assert (h + more)[..k] == h[..k];
    assert (h + more)[k..] == h[k..] + more;
  }

  lemma SortedNoneIn(s: seq<Req>, had: seq<Req>)
    requires NoneIn(s, had)
    ensures NoneIn(Sorted(s), had)
  {
    SortedOrder(s);
    forall i | 0 <= i < |Sorted(s)| ensures Sorted(s)[i] !in had {
      assert Sorted(s)[i] in multiset(s);
    }
  }

  lemma TakeInLine(had: seq<Req>, s: St, k: nat)
    requires s.batch == [] && InLine(had, s, k)
    ensures InLine(had, Next(s, Take), k)
  {
    SortedNoneIn(s.incoming, had);
    LineMore(had, Held(s), k, Sorted(s.incoming));
    assert Held(Next(s, Take)) == Held(s) + Sorted(s.incoming);
  }

  lemma PushInLine(had: seq<Req>, s: St, session: int, args: seq<byte>, k: nat)
    requires Conserved(s) && InLine(had, s, k)
    requires Free(s, session)
    ensures InLine(had, Next(s, Push(session, args)), k)
  {
    forall i | 0 <= i < |had| ensures had[i].id < |s.issued| { assert had[i] in s.issued; }
  }

  lemma StepInLine(had: seq<Req>, s: St, st: Step, k: nat) returns (k': nat)
    requires Conserved(s) && Enabled(s, st) && InLine(had, s, k)
    ensures InLine(had, Next(s, st), k')
  {
    k' := k;
    match st
    case Check =>
      var s' := Next(s, st);
      if s' == Answer(s) || s' == Drop(s) { k' := LeaveInLine(had, s, s', k); }
    case Finish(end) =>
      if end.Reply? { k' := LeaveInLine(had, s, Answer(s), k); } else { KeepKeeps(s, end.Trap?); }
    case Take => TakeInLine(had, s, k);
    case Push(session, args) => PushInLine(had, s, session, args, k);
    case Begin(drain) => BeginKeeps(s, drain);
    case GiveUp(_) =>
    case Fault =>
  }

  lemma {:induction false} RunInLine(had: seq<Req>, s: St, steps: seq<Step>, k: nat) returns (k': nat)
    requires Conserved(s) && CanRun(s, steps) && InLine(had, s, k)
    ensures InLine(had, After(s, steps), k')
    decreases steps
  {
    k' := k;
    if steps != [] {
      k' := StepInLine(had, s, steps[0], k);
      StepKeeps(s, steps[0]);
      k' := RunInLine(had, Next(s, steps[0]), steps[1..], k');
    }
  }

  /** Pending requests keep their order: whatever is later left of what the kernel holds now is still in
      the same order and ahead of everything that came in meanwhile. */
  lemma OrderKept(before: seq<Step>, later: seq<Step>)
    requires CanRun(Init(), before) && CanRun(After(Init(), before), later)
    ensures exists k :: InLine(Held(After(Init(), before)), After(After(Init(), before), later), k)
  {
    RunKeeps(Init(), before);
    var s := After(Init(), before);
    SubSelf(Held(s));
    assert Held(s)[..|Held(s)|] == Held(s);
    Parts(s);
    forall r | r in Held(s) ensures r in s.issued && r !in s.incoming {
      assert multiset(Held(s)) == multiset(s.waiting) + multiset(s.batch);
      IssuedOnce(s.issued, r);
      assert r in multiset(Held(s)) && r in multiset(s.issued);
    }
    var k := RunInLine(Held(s), s, later, |Held(s)|);
  }
}
