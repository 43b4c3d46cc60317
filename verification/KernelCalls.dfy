/** What a kernel is asked and what becomes of each request: the record of its exports' calls, and what a pass over the
    queue of requests must have done with it. */
module KernelCalls {
  import opened Prelude
  import opened KernelIpc
  import opened Arith

  const IPC_PENDING := -11

  /** A return value below this is an error reply; from here on it is the length of the result, status first. */
  const MIN_REPLY := 4

  datatype IpcResult = IpcResult(status: int, payload: seq<byte>)

  const ERROR := IpcResult(-1, [])

  /** Where in its memory the kernel takes arguments and leaves results. */
  datatype Layout = Layout(argsAt: nat, argsCap: nat, resultAt: nat, resultCap: nat)

  /** What is checked when the kernel is loaded; and a result region holds at least a status. */
  predicate LayoutOk(l: Layout, mem: nat) {
    l.argsCap > 0 && l.argsAt + l.argsCap <= mem && l.resultCap >= MIN_REPLY && l.resultAt + l.resultCap <= mem
  }

  /** Four octets as a signed number, low octet first. */
  function FromLe32(b: seq<byte>): int
    requires |b| == 4
  {
    var n := b[0] as int + b[1] as int * 256 + b[2] as int * 0x1_0000 + b[3] as int * 0x100_0000;
    if n < 0x8000_0000 then n else n - 0x1_0000_0000
  }

  function Min(a: int, b: int): int { if a < b then a else b }

  /** The status and what follows it in the result region, of which the kernel says that `rv` octets are filled. */
  function ReadResult(l: Layout, mem: seq<byte>, rv: int): IpcResult
    requires LayoutOk(l, |mem|) && rv >= MIN_REPLY
  {
    var raw := mem[l.resultAt..l.resultAt + Min(rv, l.resultCap)];
    IpcResult(FromLe32(raw[..4]), raw[4..])
  }

  lemma Digits(a: byte, b: byte, c: byte, d: int)
    ensures var n := a as int + b as int * 0x100 + c as int * 0x1_0000 + d * 0x100_0000;
      n % 0x100 == a && n / 0x100 % 0x100 == b && n / 0x1_0000 % 0x100 == c && n / 0x100_0000 == d
  {
    var n := a as int + b as int * 0x100 + c as int * 0x1_0000 + d * 0x100_0000;
    var m := c as int + d * 0x100;
    DivModIs(n, b as int + m * 0x100, a, 0x100);
    DivModIs(b as int + m * 0x100, m, b, 0x100);
    DivModIs(n, m, a as int + b as int * 0x100, 0x1_0000);
    DivModIs(m, d, c, 0x100);
    DivModIs(n, d, a as int + b as int * 0x100 + c as int * 0x1_0000, 0x100_0000);
  }

  /** Octet by octet, the lowest first, two's complement. */
  lemma FromLe32Octets(b: seq<byte>)
    requires |b| == 4
    ensures var n := FromLe32(b);
      && -0x8000_0000 <= n < 0x8000_0000
      && n % 0x100 == b[0] && n / 0x100 % 0x100 == b[1] && n / 0x1_0000 % 0x100 == b[2] && n / 0x100_0000 % 0x100 == b[3]
  {
    var top: int := b[3];
    Digits(b[0], b[1], b[2], if top < 0x80 then top else top - 0x100);
  }

  /** The status is read where the result region begins and the payload right behind it, up to the length that the
      kernel told, or to the end of the region if that is less. */
  lemma ReadResultMeaning(l: Layout, mem: seq<byte>, rv: int)
    requires LayoutOk(l, |mem|) && rv >= 4
    ensures var res := ReadResult(l, mem, rv);
      && res.status % 0x100 == mem[l.resultAt] && res.status / 0x100 % 0x100 == mem[l.resultAt + 1]
      && res.status / 0x1_0000 % 0x100 == mem[l.resultAt + 2] && res.status / 0x100_0000 % 0x100 == mem[l.resultAt + 3]
      && |res.payload| == (if rv <= l.resultCap then rv else l.resultCap) - 4
      && forall k :: 0 <= k < |res.payload| ==> res.payload[k] == mem[l.resultAt + 4 + k]
  {
    var raw := mem[l.resultAt..l.resultAt + Min(rv, l.resultCap)];
    FromLe32Octets(raw[..4]);
  }

  // ------------------------------------------------------------ the calls a kernel gets

  datatype Export = HandleIpc(req: Req) | OnTick(now: int) | OnEvent

  /** One call of an export: what it returned, and the memory before and after it. */
  datatype Made = Made(what: Export, rv: Option<int>, before: seq<byte>, after: seq<byte>)

  /** What became of a request when its turn came: its place among the calls, if the kernel was asked, and among the
      answers, if it was answered. `dead`: the kernel could not be asked any more. */
  datatype Turn = Turn(req: Req, call: Option<nat>, reply: Option<nat>, dead: bool)

  predicate Unanswered(m: Made) { m.rv == None || m.rv == Some(-11) }

  predicate Completed(t: Turn) { t.reply.Some? && !t.dead }

  predicate Waits(t: Turn) { t.call.Some? && t.reply.None? }

  function Reading(l: Layout, m: Made): IpcResult
    requires !Unanswered(m) && LayoutOk(l, |m.after|)
  {
    if m.rv.value < 4 then IpcResult(-1, []) else ReadResult(l, m.after, m.rv.value)
  }

  /** The kernel found the request's arguments where it takes them. */
  ghost predicate AskedRightly(l: Layout, t: Turn, m: Made) {
    && m.what == HandleIpc(t.req) && LayoutOk(l, |m.before|) && LayoutOk(l, |m.after|)
    && |t.req.args| <= l.argsCap && m.before[l.argsAt..l.argsAt + |t.req.args|] == t.req.args
  }

  /** The calls made and the answers given so far, who gave up, and whether the kernel is dead. */
  datatype Books = Books(log: seq<Made>, answered: seq<Req>, replies: seq<IpcResult>, abandoned: set<nat>, faulted: bool)

  /** A request that the kernel was asked about is answered with what it returned, or not at all; one that it was not
      asked about has been given up, or gets an error because its arguments do not fit or the kernel is dead. */
  ghost predicate TurnOk(l: Layout, t: Turn, b: Books) {
    && (t.reply.Some? ==> t.reply.value < |b.answered| == |b.replies| && b.answered[t.reply.value] == t.req)
    && match t.call
       case Some(c) =>
         && !t.dead && c < |b.log| && AskedRightly(l, t, b.log[c])
         && (t.reply.None? <==> Unanswered(b.log[c]))
         && (t.reply.Some? ==> b.replies[t.reply.value] == Reading(l, b.log[c]))
       case None =>
         if t.reply.None? then !t.dead && t.req.id in b.abandoned
         else b.replies[t.reply.value] == IpcResult(-1, []) && if t.dead then b.faulted else |t.req.args| > l.argsCap
  }

  function CallsOf(turns: seq<Turn>): (s: seq<Option<nat>>)
    ensures |s| == |turns| && forall i :: 0 <= i < |s| ==> s[i] == turns[i].call
  {
    seq(|turns|, i requires 0 <= i < |turns| => turns[i].call)
  }

  function RepliesOf(turns: seq<Turn>): (s: seq<Option<nat>>)
    ensures |s| == |turns| && forall i :: 0 <= i < |s| ==> s[i] == turns[i].reply
  {
    seq(|turns|, i requires 0 <= i < |turns| => turns[i].reply)
  }

  /** The places taken are `lo`, `lo + 1`, ..., `hi - 1`, in this order. */
  ghost predicate Numbers(s: seq<Option<nat>>, lo: nat, hi: nat) {
    && (forall i :: 0 <= i < |s| && s[i].Some? ==> lo <= s[i].value < hi)
    && (forall i, j :: 0 <= i < j < |s| && s[i].Some? && s[j].Some? ==> s[i].value < s[j].value)
    && forall k: nat :: lo <= k < hi ==> Some(k) in s
  }

  lemma NumbersMore(s: seq<Option<nat>>, lo: nat, hi: nat, p: Option<nat>)
    requires lo <= hi && Numbers(s, lo, hi) && (p.Some? ==> p.value == hi)
    ensures Numbers(s + [p], lo, if p.Some? then hi + 1 else hi)
  {
    var t, top := s + [p], if p.Some? then hi + 1 else hi;
    forall k: nat | lo <= k < top ensures Some(k) in t {
      if k < hi { assert Some(k) in s; } else { assert t[|s|] == Some(k); }
    }
  }

  ghost predicate Later(b: Books, b': Books) {
    && b.log <= b'.log && b.answered <= b'.answered && b.replies <= b'.replies && |b'.answered| == |b'.replies|
    && b.abandoned <= b'.abandoned && (b.faulted ==> b'.faulted)
  }

  /** What one turn does to the books. Only a kernel that is dead already is not asked, or one that cannot take the
      arguments, and only a call without an answer kills it. */
  ghost predicate TurnTaken(l: Layout, t: Turn, b: Books, b': Books) {
    && Later(b, b') && TurnOk(l, t, b')
    && (t.req.id in b.abandoned ==> t.call.None? && t.reply.None?)
    && (if t.call.Some? then |b'.log| == |b.log| + 1 && t.call.value == |b.log| else b'.log == b.log)
    && (if t.reply.Some? then |b'.answered| == |b.answered| + 1 && t.reply.value == |b.answered| else b'.answered == b.answered)
    && (b.faulted ==> t.call.None? && !Completed(t))
    && (t.dead ==> b.faulted)
    && (b'.faulted && !b.faulted ==> t.call.Some? && b'.log[t.call.value].rv == None)
  }

  // ------------------------------------------------------------ a pass

  ghost predicate TookTurn(l: Layout, reqs: seq<Req>, turns: seq<Turn>, books: seq<Books>, k: nat)
    requires k < |turns| <= |reqs| && |books| == |turns| + 1
  {
    turns[k].req == reqs[k] && TurnTaken(l, turns[k], books[k], books[k + 1])
  }

  /** The first of `reqs` had their turns, one after another; `books[k]` is how it stood before turn k. */
  ghost predicate Pass(l: Layout, reqs: seq<Req>, turns: seq<Turn>, books: seq<Books>) {
    && |turns| <= |reqs| && |books| == |turns| + 1
    && forall k :: 0 <= k < |turns| ==> TookTurn(l, reqs, turns, books, k)
  }

  /** The requests that wait on, in order. */
  function StillWaiting(turns: seq<Turn>): seq<Req> {
    if turns == [] then []
    else
      var n := |turns| - 1;
      StillWaiting(turns[..n]) + if Waits(turns[n]) then [turns[n].req] else []
  }

  function Done(turns: seq<Turn>): set<int> { set i | 0 <= i < |turns| && Completed(turns[i]) }

  lemma {:induction false} OneMoreTurn(l: Layout, reqs: seq<Req>, turns: seq<Turn>, books: seq<Books>, t: Turn, b': Books)
    requires Pass(l, reqs, turns, books) && |turns| < |reqs| && t.req == reqs[|turns|]
    requires TurnTaken(l, t, books[|turns|], b')
    ensures Pass(l, reqs, turns + [t], books + [b'])
  {
    forall k | 0 <= k < |turns + [t]| ensures TookTurn(l, reqs, turns + [t], books + [b'], k) {
      if k < |turns| { SameTurn(l, reqs, turns, books, t, b', k); }
    }
  }

  lemma {:induction false} SameTurn(l: Layout, reqs: seq<Req>, turns: seq<Turn>, books: seq<Books>, t: Turn, b': Books, k: nat)
    requires k < |turns| < |reqs| && |books| == |turns| + 1 && TookTurn(l, reqs, turns, books, k)
    ensures TookTurn(l, reqs, turns + [t], books + [b'], k)
  {
    assert (turns + [t])[k] == turns[k] && (books + [b'])[k] == books[k] && (books + [b'])[k + 1] == books[k + 1];
  }

  lemma {:induction false} OneMoreOutcome(turns: seq<Turn>, t: Turn)
    ensures StillWaiting(turns + [t]) == StillWaiting(turns) + if Waits(t) then [t.req] else []
    ensures |Done(turns + [t])| == |Done(turns)| + if Completed(t) then 1 else 0
  {
    assert (turns + [t])[..|turns|] == turns;
    assert Done(turns + [t]) == Done(turns) + if Completed(t) then {|turns|} else {};
  }

  lemma LaterTrans(a: Books, b: Books, c: Books)
    requires Later(a, b) && Later(b, c)
    ensures Later(a, c)
  {
  }

  /** Books are only ever added to. */
  lemma {:induction false} LaterInPass(l: Layout, reqs: seq<Req>, turns: seq<Turn>, books: seq<Books>, i: nat, j: nat)
    requires Pass(l, reqs, turns, books) && i < j <= |turns|
    ensures Later(books[i], books[j])
    decreases j
  {
    assert TookTurn(l, reqs, turns, books, j - 1);
    if i < j - 1 {
      LaterInPass(l, reqs, turns, books, i, j - 1);
      LaterTrans(books[i], books[j - 1], books[j]);
    }
  }

  lemma TurnLasts(l: Layout, t: Turn, b: Books, b': Books)
    requires TurnOk(l, t, b) && Later(b, b')
    ensures TurnOk(l, t, b')
  {
    if t.call.Some? { assert b'.log[t.call.value] == b.log[t.call.value]; }
    if t.reply.Some? {
      assert b'.answered[t.reply.value] == b.answered[t.reply.value];
      assert b'.replies[t.reply.value] == b.replies[t.reply.value];
    }
  }

  /** When a pass is over, what became of each of its requests can still be read in the books. */
  lemma TurnsStand(l: Layout, reqs: seq<Req>, turns: seq<Turn>, books: seq<Books>, k: nat)
    requires Pass(l, reqs, turns, books) && k < |turns|
    ensures turns[k].req == reqs[k] && TurnOk(l, turns[k], books[|turns|])
  {
    assert TookTurn(l, reqs, turns, books, k);
    if k + 1 < |turns| {
      LaterInPass(l, reqs, turns, books, k + 1, |turns|);
      TurnLasts(l, turns[k], books[k + 1], books[|turns|]);
    }
  }

  lemma {:induction false} PassPrefix(l: Layout, reqs: seq<Req>, turns: seq<Turn>, books: seq<Books>, n: nat)
    requires Pass(l, reqs, turns, books) && n <= |turns|
    ensures Pass(l, reqs, turns[..n], books[..n + 1])
  {
    var before, pages := turns[..n], books[..n + 1];
    forall k | 0 <= k < n ensures TookTurn(l, reqs, before, pages, k) {
      assert TookTurn(l, reqs, turns, books, k);
      assert before[k] == turns[k] && pages[k] == books[k] && pages[k + 1] == books[k + 1];
    }
  }

  /** While the kernel lives every request is put to it, unless it was given up or its arguments do not fit. */
  lemma EveryRequestIsAsked(l: Layout, reqs: seq<Req>, turns: seq<Turn>, books: seq<Books>, k: nat)
    requires Pass(l, reqs, turns, books) && k < |turns| == |reqs| && !books[|turns|].faulted
    requires reqs[k].id !in books[|turns|].abandoned && |reqs[k].args| <= l.argsCap
    ensures var log := books[|turns|].log;
      exists c :: |books[0].log| <= c < |log| && log[c].what == HandleIpc(reqs[k])
  {
    TurnsStand(l, reqs, turns, books, k);
    assert TookTurn(l, reqs, turns, books, k);
    if k > 0 { LaterInPass(l, reqs, turns, books, 0, k); }
    var c := turns[k].call.value;
    assert books[|turns|].log[c].what == HandleIpc(reqs[k]);
  }

  /** The calls made in a pass are those of its turns, one each and in order; and so are the answers given. */
  lemma {:induction false} NothingElseIsCalled(l: Layout, reqs: seq<Req>, turns: seq<Turn>, books: seq<Books>)
    requires Pass(l, reqs, turns, books)
    ensures |books[0].log| <= |books[|turns|].log| && |books[0].answered| <= |books[|turns|].answered|
    ensures Numbers(CallsOf(turns), |books[0].log|, |books[|turns|].log|)
    ensures Numbers(RepliesOf(turns), |books[0].answered|, |books[|turns|].answered|)
    decreases |turns|
  {
    if turns != [] {
      var n := |turns| - 1;
      var t, before := turns[n], turns[..n];
      PassPrefix(l, reqs, turns, books, n);
      NothingElseIsCalled(l, reqs, before, books[..n + 1]);
      assert TookTurn(l, reqs, turns, books, n);
      NumbersMore(CallsOf(before), |books[0].log|, |books[n].log|, t.call);
      NumbersMore(RepliesOf(before), |books[0].answered|, |books[n].answered|, t.reply);
      assert CallsOf(turns) == CallsOf(before) + [t.call] && RepliesOf(turns) == RepliesOf(before) + [t.reply];
    }
  }

  /** Exactly those wait on that the kernel was asked about and did not answer. */
  lemma {:induction false} WaitingMeaning(turns: seq<Turn>, r: Req)
    ensures r in StillWaiting(turns) <==>
            exists i :: 0 <= i < |turns| && turns[i].req == r && turns[i].call.Some? && turns[i].reply.None?
    decreases |turns|
  {
    if turns != [] {
      var n := |turns| - 1;
      var before := turns[..n];
      WaitingMeaning(before, r);
      if i :| 0 <= i < |before| && before[i].req == r && before[i].call.Some? && before[i].reply.None? {
        assert turns[i] == before[i];
      }
      if i :| 0 <= i < |turns| && turns[i].req == r && turns[i].call.Some? && turns[i].reply.None? {
        assert i < n ==> before[i] == turns[i];
      }
    }
  }

  /** One of the first `n` turns called a kernel that gave no answer. */
  ghost predicate NoAnswerBefore(turns: seq<Turn>, log: seq<Made>, n: nat) {
    exists j :: 0 <= j < n && j < |turns| && turns[j].call.Some? && turns[j].call.value < |log| && log[turns[j].call.value].rv == None
  }

  /** A kernel that is dead before a turn was dead when the pass began, or a call of an earlier turn killed it. */
  lemma {:induction false} DeathHasACause(l: Layout, reqs: seq<Req>, turns: seq<Turn>, books: seq<Books>, n: nat)
    requires Pass(l, reqs, turns, books) && n <= |turns| && books[n].faulted
    ensures books[0].faulted || NoAnswerBefore(turns, books[n].log, n)
  {
    if n > 0 {
      assert TookTurn(l, reqs, turns, books, n - 1);
      if books[n - 1].faulted {
        DeathHasACause(l, reqs, turns, books, n - 1);
        if NoAnswerBefore(turns, books[n - 1].log, n - 1) {
          var j :| 0 <= j < n - 1 && turns[j].call.Some? && turns[j].call.value < |books[n - 1].log|
                   && books[n - 1].log[turns[j].call.value].rv == None;
          assert books[n].log[turns[j].call.value] == books[n - 1].log[turns[j].call.value];
        }
      }
    }
  }

  // ------------------------------------------------------------ one iteration

  /** When the next tick is due after one that answered `rv`. */
  function Due(rv: Option<int>, now: int): int {
    match rv
    case Some(v) => if v < 0 then now + 100 else if v < now then now else v
    case None => now + 100
  }

  /** Answers are given in the pass and nowhere else in an iteration. */
  ghost predicate AroundPass(b: Books, begun: Books, ended: Books, b': Books) {
    && Later(b, begun) && begun.answered == b.answered && begun.replies == b.replies
    && Later(ended, b') && b'.answered == ended.answered && b'.replies == ended.replies
  }

  /** After call `from` there were `events` interrupts and a tick before the pass; after it there was another tick exactly
      if something was completed; and the last tick says when the next is due. */
  ghost predicate Ticked(from: nat, events: nat, before: seq<Made>, after: seq<Made>, completed: bool, now: int, log: seq<Made>,
                         nextDue: int) {
    && |before| == from + events + 1 && before[from + events].what == OnTick(now)
    && (forall k :: from <= k < from + events ==> before[k].what == OnEvent)
    && if completed
       then after < log && |log| == |after| + 1 && log[|after|].what == OnTick(now) && nextDue == Due(log[|after|].rv, now)
       else log == after && nextDue == Due(before[from + events].rv, now)
  }
}
