/** Pipes (`Pipe`): the critical sections under the pipe's own lock, and the blocking calls built from them. */
module Pipes {
  import opened Prelude
  import opened Sched

  const NEWLINE: byte := 10

  /** A byte in a pipe, tagged with the writing call it came from. The tag is for the specification only. */
  datatype Octet = Octet(call: nat, b: byte)

  /** `taken` and `accepted` record everything that ever left and entered the buffer. */
  datatype Pipe = Pipe(cap: nat, buf: seq<Octet>, readers: nat, writers: nat, waiters: seq<ActorId>,
                       taken: seq<Octet>, accepted: seq<Octet>)

  /** A bounded FIFO: what left, then what is held, is what came in; never more than `cap` held. */
  predicate PipeOk(p: Pipe) {
    p.taken + p.buf == p.accepted && |p.buf| <= p.cap
  }

  function Empty(cap: nat): Pipe { Pipe(cap, [], 0, 0, [], [], []) }

  // ------------------------------------------------------------ what a waiter waits for

  /** A blocked reader would make progress: data, or end of file. */
  predicate Readable(p: Pipe) { p.buf != [] || p.writers == 0 }

  /** A blocked writer would make progress: room, or a broken pipe. */
  predicate Writable(p: Pipe) { |p.buf| < p.cap || p.readers == 0 }

  function AddWaiter(p: Pipe, a: ActorId): Pipe {
    if a in p.waiters then p else p.(waiters := p.waiters + [a])
  }

  // ------------------------------------------------------------ critical sections

  /** The new pipe and the waiters to wake once the pipe's lock is released. */
  datatype Outcome = Outcome(p: Pipe, woken: seq<ActorId>)

  /** How many bytes a read takes: at most `max`, stopping after `lines` newlines (`None`: no line limit). */
  function TakeCount(buf: seq<Octet>, max: nat, lines: Option<nat>): (n: nat)
    ensures n <= max && n <= |buf|
  {
    if buf == [] || max == 0 || lines == Some(0) then 0
    else
      1 + TakeCount(buf[1..], max - 1,
                    if lines.Some? && buf[0].b == NEWLINE then Some(lines.value - 1) else lines)
  }

  function TryRead(p: Pipe, max: nat, lines: Option<nat>): Outcome {
    var n := TakeCount(p.buf, max, lines);
    if n == 0 then Outcome(p, [])
    else Outcome(p.(buf := p.buf[n..], taken := p.taken + p.buf[..n], waiters := []), p.waiters)
  }

  /** How many bytes a write accepts. */
  function Room(p: Pipe, len: nat): (n: nat)
    ensures n <= len
  {
    if p.cap <= |p.buf| then 0 else if len <= p.cap - |p.buf| then len else p.cap - |p.buf|
  }

  function Tag(call: nat, data: seq<byte>): (r: seq<Octet>)
    ensures |r| == |data|
  {
    seq(|data|, i requires 0 <= i < |data| => Octet(call, data[i]))
  }

  function TryWrite(p: Pipe, call: nat, data: seq<byte>): Outcome {
    var n := Room(p, |data|);
    if p.readers == 0 || n == 0 then Outcome(p, [])
    else
      var added := Tag(call, data[..n]);
      Outcome(p.(buf := p.buf + added, accepted := p.accepted + added, waiters := []), p.waiters)
  }

  function AddReader(p: Pipe): Outcome { Outcome(p.(readers := p.readers + 1), []) }

  function AddWriter(p: Pipe): Outcome { Outcome(p.(writers := p.writers + 1), []) }

  function SaturatingDec(n: nat): nat { if n == 0 then 0 else n - 1 }

  function DropReader(p: Pipe): Outcome {
    var q := p.(readers := SaturatingDec(p.readers));
    if q.readers == 0 then Outcome(q.(waiters := []), q.waiters) else Outcome(q, [])
  }

  function DropWriter(p: Pipe): Outcome {
    var q := p.(writers := SaturatingDec(p.writers));
    if q.writers == 0 then Outcome(q.(waiters := []), q.waiters) else Outcome(q, [])
  }

  /** Any of the critical sections that change a pipe. */
  datatype Op =
    | OpRead(max: nat, lines: Option<nat>)
    | OpWrite(call: nat, data: seq<byte>)
    | OpAddReader | OpAddWriter | OpDropReader | OpDropWriter

  function Apply(p: Pipe, op: Op): Outcome {
    match op
    case OpRead(max, lines) => TryRead(p, max, lines)
    case OpWrite(call, data) => TryWrite(p, call, data)
    case OpAddReader => AddReader(p)
    case OpAddWriter => AddWriter(p)
    case OpDropReader => DropReader(p)
    case OpDropWriter => DropWriter(p)
  }

  /** Every operation keeps the pipe a bounded FIFO, only extends its history, and keeps or takes each waiter. */
  lemma ApplyKeeps(p: Pipe, op: Op)
    requires PipeOk(p)
    ensures PipeOk(Apply(p, op).p) && Apply(p, op).p.cap == p.cap
    ensures p.taken <= Apply(p, op).p.taken && p.accepted <= Apply(p, op).p.accepted
    ensures forall a :: a in p.waiters ==> a in Apply(p, op).p.waiters || a in Apply(p, op).woken
  {
    match op
    case OpRead(max, lines) =>
      var n := TakeCount(p.buf, max, lines);
      assert p.buf == p.buf[..n] + p.buf[n..];
      assert p.taken + p.buf[..n] + p.buf[n..] == p.taken + p.buf;
    case OpWrite(call, data) =>
      var added := Tag(call, data[..Room(p, |data|)]);
      assert p.taken + (p.buf + added) == p.taken + p.buf + added;
    case _ =>
  }

  /** An operation that makes some waiter's condition true takes the waiters. */
  lemma FlipTakesWaiters(p: Pipe, op: Op)
    requires PipeOk(p)
    requires (!Readable(p) && Readable(Apply(p, op).p)) || (!Writable(p) && Writable(Apply(p, op).p))
    ensures Apply(p, op).woken == p.waiters
  {
  }

  function Newlines(s: seq<Octet>): nat {
    if s == [] then 0 else (if s[0].b == NEWLINE then 1 else 0) + Newlines(s[1..])
  }

  /** A read stops early only for a good reason: buffer drained, destination full, or the last allowed line ended. */
  lemma {:induction false} TakeCountMeaning(buf: seq<Octet>, max: nat, lines: Option<nat>)
    ensures var n := TakeCount(buf, max, lines);
      && (lines.Some? ==> Newlines(buf[..n]) <= lines.value)
      && (n < max && n < |buf| ==> lines.Some? && Newlines(buf[..n]) == lines.value && (n > 0 ==> buf[n - 1].b == NEWLINE))
  {
    var n := TakeCount(buf, max, lines);
    if n > 0 {
      var left := if lines.Some? && buf[0].b == NEWLINE then Some(lines.value - 1) else lines;
      TakeCountMeaning(buf[1..], max - 1, left);
      assert buf[..n][1..] == buf[1..][..n - 1];
      assert n > 1 ==> buf[n - 1] == buf[1..][n - 2];
    }
  }

  function Min(a: nat, b: nat): nat { if a < b then a else b }

  /** Without a line limit a read takes the first bytes, as many as there are or fit. */
  lemma {:induction false} TakeAll(buf: seq<Octet>, max: nat)
    ensures TakeCount(buf, max, None) == Min(max, |buf|)
    decreases |buf|
  {
    if buf != [] && max > 0 { TakeAll(buf[1..], max - 1); }
  }

  /** A write fills the pipe or gets everything in. */
  lemma RoomMeaning(p: Pipe, len: nat)
    requires |p.buf| <= p.cap
    ensures var n := Room(p, len); n <= len && |p.buf| + n <= p.cap && (n == len || |p.buf| + n == p.cap)
  {
  }

  /** A reader waits exactly for what lets a read take something, or for the last writer to go. */
  lemma ReadableMeaning(p: Pipe)
    ensures Readable(p) <==> p.writers == 0 || |Apply(p, OpRead(1, None)).p.taken| > |p.taken|
  {
    TakeAll(p.buf, 1);
  }

  /** A writer waits exactly for what lets a write put something in, or for the last reader to go. */
  lemma WritableMeaning(p: Pipe, b: byte)
    ensures Writable(p) <==> p.readers == 0 || |Apply(p, OpWrite(0, [b])).p.accepted| > |p.accepted|
  {
  }

  /** Ends are counted, and whoever closes the last one of a kind wakes all waiters. */
  lemma EndsAreCounted(p: Pipe)
    ensures Apply(p, OpAddReader).p == p.(readers := p.readers + 1) && Apply(p, OpAddWriter).p == p.(writers := p.writers + 1)
    ensures p.readers > 0 ==> Apply(p, OpDropReader).p.readers == p.readers - 1 && Apply(p, OpDropReader).p.writers == p.writers
    ensures p.writers > 0 ==> Apply(p, OpDropWriter).p.writers == p.writers - 1 && Apply(p, OpDropWriter).p.readers == p.readers
    ensures p.readers == 1 ==> Apply(p, OpDropReader).woken == p.waiters
    ensures p.writers == 1 ==> Apply(p, OpDropWriter).woken == p.waiters
    ensures Apply(p, OpDropReader).p.buf == p.buf == Apply(p, OpDropWriter).p.buf
  {
  }

  // ------------------------------------------------------------ bytes of one writing call

  /** The bytes of `s` written by `call`, in order. */
  function By(s: seq<Octet>, call: nat): seq<byte> {
    if s == [] then [] else (if s[0].call == call then [s[0].b] else []) + By(s[1..], call)
  }

  lemma {:induction false} ByConcat(s: seq<Octet>, t: seq<Octet>, call: nat)
    ensures By(s + t, call) == By(s, call) + By(t, call)
  {
    if s == [] {
      assert s + t == t;
    } else {
      var head := if s[0].call == call then [s[0].b] else [];
      assert (s + t)[0] == s[0] && (s + t)[1..] == s[1..] + t;
      ByConcat(s[1..], t, call);
      assert By(s + t, call) == head + (By(s[1..], call) + By(t, call));
      assert head + (By(s[1..], call) + By(t, call)) == head + By(s[1..], call) + By(t, call);
    }
  }

  lemma {:induction false} ByTag(call: nat, data: seq<byte>)
    ensures By(Tag(call, data), call) == data
  {
    if data != [] {
      assert Tag(call, data)[1..] == Tag(call, data[1..]);
      ByTag(call, data[1..]);
      assert [data[0]] + data[1..] == data;
    }
  }

  // ------------------------------------------------------------ the object

  datatype Verdict = Woken | IsKilled | StillAsleep
  datatype ReadEnd = Got(bytes: seq<byte>) | ReadKilled | ReadStillBlocked
  datatype WriteEnd = Wrote(n: int) | WriteKilled | WriteStillBlocked

  function Plain(s: seq<Octet>): (r: seq<byte>)
    ensures |r| == |s|
  {
    seq(|s|, i requires 0 <= i < |s| => s[i].b)
  }

  /** What a write adds to what is held and to what ever came in. */
  lemma {:induction false} WriteAdds(buf: seq<Octet>, accepted: seq<Octet>, call: nat, data: seq<byte>)
    ensures By(accepted + Tag(call, data), call) == By(accepted, call) + data
    ensures Plain(buf + Tag(call, data)) == Plain(buf) + data
    ensures data == [] ==> buf + Tag(call, data) == buf && accepted + Tag(call, data) == accepted
  {
    ByConcat(accepted, Tag(call, data), call);
    ByTag(call, data);
  }

  /** One pipe and the scheduler its calls block in. */
  class PipeObject {
    const cap: nat
    const sched: Scheduler
    var buf: seq<Octet>
    var readers: nat
    var writers: nat
    var waiters: seq<ActorId>
    ghost var taken: seq<Octet>
    ghost var accepted: seq<Octet>

    ghost function View(): Pipe
      reads this
    {
      Pipe(cap, buf, readers, writers, waiters, taken, accepted)
    }

    ghost predicate Valid()
      reads this, sched
    {
      PipeOk(View()) && sched.Valid()
    }

    constructor (cap: nat, sched: Scheduler)
      requires sched.Valid()
      ensures Valid() && View() == Empty(cap) && this.sched == sched
    {
      this.cap, this.sched := cap, sched;
      buf, readers, writers, waiters, taken, accepted := [], 0, 0, [], [], [];
    }

    /** The loop of `try_read_lines`. */
    method PopLines(max: nat, lines: Option<nat>) returns (out: seq<byte>, nl: nat)
      modifies this`buf, this`taken
      ensures var n := TakeCount(old(buf), max, lines);
        && buf == old(buf)[n..] && taken == old(taken) + old(buf)[..n]
        && out == Plain(old(buf)[..n]) && nl == Newlines(old(buf)[..n])
    {
      out, nl := [], 0;
      ghost var start, n := buf, 0;
      var left := lines;
      while |out| < max && left != Some(0) && buf != []
        invariant n <= |start| && |out| == n <= max
        invariant buf == start[n..] && taken == old(taken) + start[..n]
        invariant out == Plain(start[..n]) && nl == Newlines(start[..n])
        invariant lines.Some? <==> left.Some?
        invariant TakeCount(start, max, lines) == n + TakeCount(buf, max - n, left)
        decreases |buf|
      {
        var o := buf[0];
        NewlinesSnoc(start[..n], o);
        assert start[..n] + [o] == start[..n + 1];
        buf, out, taken := buf[1..], out + [o.b], taken + [o];
        if o.b == NEWLINE {
          nl := nl + 1;
          left := if left.Some? then Some(left.value - 1) else left;
        }
        n := n + 1;
      }
    }

    method TryReadLines(max: nat, lines: Option<nat>) returns (out: seq<byte>, nl: nat)
      requires Valid()
      modifies this, sched
      ensures Valid()
      ensures View() == TryRead(old(View()), max, lines).p
      ensures sched.St() == WakeAll(old(sched.St()), TryRead(old(View()), max, lines).woken)
      ensures out == Plain(old(buf)[..TakeCount(old(buf), max, lines)])
      ensures nl == Newlines(old(buf)[..TakeCount(old(buf), max, lines)])
      ensures |out| <= max && |out| <= |old(buf)| && out == Plain(old(buf)[..|out|]) && buf == old(buf)[|out|..]
      ensures lines.None? ==> |out| == Min(max, |old(buf)|)
      ensures lines.Some? ==> nl <= lines.value && (|out| == max || buf == [] || nl == lines.value)
      ensures out == [] ==> View() == old(View()) && sched.St() == old(sched.St())
      ensures out != [] ==> waiters == [] && forall a :: a in old(waiters) && a in sched.actors ==> !sched.actors[a].blocked
    {
      TakeAll(buf, max);
      TakeCountMeaning(buf, max, lines);
      ApplyKeeps(View(), OpRead(max, lines));
      out, nl := PopLines(max, lines);
      var woken := [];
      if |out| > 0 {
        woken, waiters := waiters, [];
      }
      WakeAllEffect(sched.St(), woken);
      sched.DoWakeAll(woken);
    }

    /** One attempt; the answer is how many bytes went in, or -1 for a broken pipe. */
    method TryWriteBytes(call: nat, data: seq<byte>) returns (n: int)
      requires Valid()
      modifies this, sched
      ensures Valid()
      ensures View() == TryWrite(old(View()), call, data).p
      ensures sched.St() == WakeAll(old(sched.St()), TryWrite(old(View()), call, data).woken)
      ensures n == if old(readers) == 0 then -1 else Room(old(View()), |data|)
      ensures By(accepted, call) == By(old(accepted), call) + (if n <= 0 then [] else data[..n])
      ensures n < 0 <==> old(readers) == 0
      ensures n >= 0 ==> n <= |data| && |buf| == |old(buf)| + n && (n == |data| || |buf| == cap)
      ensures n >= 0 ==> Plain(buf) == Plain(old(buf)) + data[..n]
      ensures n <= 0 ==> View() == old(View()) && sched.St() == old(sched.St())
      ensures n > 0 ==> waiters == [] && forall a :: a in old(waiters) && a in sched.actors ==> !sched.actors[a].blocked
    {
      ApplyKeeps(View(), OpWrite(call, data));
      if readers == 0 {
        assert By(accepted, call) + [] == By(accepted, call);
        return -1;
      }
      n := if cap <= |buf| then 0 else if |data| <= cap - |buf| then |data| else cap - |buf|;
      var woken := [];
      WriteAdds(buf, accepted, call, data[..n]);
      buf, accepted := buf + Tag(call, data[..n]), accepted + Tag(call, data[..n]);
      if n > 0 {
        woken, waiters := waiters, [];
      }
      WakeAllEffect(sched.St(), woken);
      sched.DoWakeAll(woken);
    }

    /** Whatever other threads do while this one holds no lock: any number of pipe operations that are
        not part of call `me`, and any scheduler activity. Also reads the killed flag. */
    method Others(me: nat) returns (killed: bool)
      requires Valid()
      modifies this, sched
      ensures Valid()
      ensures old(taken) <= taken && old(accepted) <= accepted
      ensures By(accepted, me) == By(old(accepted), me)
    {
      killed := false;
    }

    /** `wait` until readable (`reading`) or writable, or killed, then look at the killed flag once more.
        At most `fuel` rounds are followed. `seen` is the pipe in the last of them, and `told` the killed flag. */
    method Await(me: nat, actor: ActorId, reading: bool, fuel: nat) returns (v: Verdict, ghost seen: Pipe, ghost told: bool)
      requires Valid()
      modifies this, sched
      ensures Valid()
      ensures old(taken) <= taken && old(accepted) <= accepted
      ensures By(accepted, me) == By(old(accepted), me)
      ensures fuel > 0 ==> (v != StillAsleep <==>
                told || (if reading then seen.buf != [] || seen.writers == 0 else |seen.buf| < cap || seen.readers == 0))
      ensures fuel > 0 && v == StillAsleep ==>
                actor in waiters && (actor in sched.actors ==> sched.actors[actor] == Actor(true, None))
    {
      var left := fuel;
      seen, told := View(), false;
      v := StillAsleep;
      while left > 0
        invariant Valid()
        invariant old(taken) <= taken && old(accepted) <= accepted
        invariant By(accepted, me) == By(old(accepted), me)
        invariant left < fuel ==> actor in waiters && (actor in sched.actors ==> sched.actors[actor] == Actor(true, None))
        invariant left < fuel ==>
          !(told || (if reading then seen.buf != [] || seen.writers == 0 else |seen.buf| < cap || seen.readers == 0))
      {
        var killed := Others(me);
        seen, told := View(), killed;
        var ready := killed || (if reading then buf != [] || writers == 0 else |buf| < cap || readers == 0);
        if !ready && actor !in waiters {
          waiters := waiters + [actor];
        }
        var w := sched.WaitRound(actor, None, ready);
        if w != Asleep {
          killed := Others(me);
          v := if killed then IsKilled else Woken;
          return;
        }
        left := left - 1;
      }
    }

    /** Blocking read. `Got([])` is end of file. `ReadStillBlocked`: no answer within `fuel` rounds. */
    method Read(me: nat, actor: ActorId, max: nat, fuel: nat) returns (r: ReadEnd)
      requires Valid()
      modifies this, sched
      ensures Valid() && old(taken) <= taken && old(accepted) <= accepted
      ensures r == Got([]) && max > 0 ==> buf == [] && writers == 0
      ensures r.Got? ==> |r.bytes| <= max
      ensures fuel > 0 && (old(buf) != [] || max == 0) ==> r == Got(Plain(old(buf)[..Min(max, |old(buf)|)]))
      ensures r.Got? && r.bytes != [] ==> |r.bytes| <= |taken| - |old(taken)| && Plain(taken[|taken| - |r.bytes|..]) == r.bytes
    {
      var left := fuel;
      while left > 0
        invariant Valid() && old(taken) <= taken && old(accepted) <= accepted
        invariant if left == fuel then buf == old(buf) else old(buf) == [] && max > 0
      {
        ghost var before := View();
        ApplyKeeps(View(), OpRead(max, None));
        var out, _ := TryReadLines(max, None);
        if |out| > 0 || max == 0 {
          assert |out| > 0 ==> taken[|taken| - |out|..] == before.buf[..|out|];
          return Got(out);
        }
        var v, _, _ := Await(me, actor, true, left);
        if v != Woken {
          return if v.IsKilled? then ReadKilled else ReadStillBlocked;
        }
        if buf == [] && writers == 0 {
          return Got([]);
        }
        left := left - 1;
      }
      r := ReadStillBlocked;
    }

    /** The next attempt of a blocking write that already got `off` bytes in since it started at `was`. */
    method WriteRest(me: nat, data: seq<byte>, off: nat, ghost was: seq<byte>) returns (n: int)
      requires Valid() && off < |data| && By(accepted, me) == was + data[..off]
      modifies this, sched
      ensures Valid() && old(taken) <= taken && old(accepted) <= accepted
      ensures n < 0 ==> readers == 0
      ensures n <= |data| - off
      ensures By(accepted, me) == was + data[..off + if n < 0 then 0 else n]
    {
      ApplyKeeps(View(), OpWrite(me, data[off..]));
      n := TryWriteBytes(me, data[off..]);
      PrefixGrows(was, data, off, if n < 0 then 0 else n);
    }

    /** Attempts and waits in turn until `data` is in. The answer is exactly how long a prefix was accepted; -1 for a pipe
        that was already broken. A short answer means that no reader is left. */
    method Write(me: nat, actor: ActorId, data: seq<byte>, fuel: nat) returns (r: WriteEnd)
      requires Valid()
      modifies this, sched
      ensures Valid() && old(taken) <= taken && old(accepted) <= accepted
      ensures r.Wrote? ==> -1 <= r.n <= |data|
      ensures r.Wrote? ==> By(accepted, me) == By(old(accepted), me) + data[..if r.n < 0 then 0 else r.n]
      ensures r.Wrote? && r.n < |data| ==> readers == 0 && r.n != 0
      ensures !r.Wrote? ==> exists k: nat :: k < |data| && By(accepted, me) == By(old(accepted), me) + data[..k]
    {
      var off: nat := 0;
      var left := fuel;
      ghost var was := By(accepted, me);
      assert was + data[..0] == was;
      while off < |data|
        invariant Valid() && old(taken) <= taken && old(accepted) <= accepted
        invariant off <= |data|
        invariant By(accepted, me) == was + data[..off]
        decreases left
      {
        var n := WriteRest(me, data, off, was);
        if n < 0 {
          return Wrote(if off > 0 then off else -1);
        }
        off := off + n;
        if off >= |data| {
          break;
        }
        if left == 0 {
          return WriteStillBlocked;
        }
        var v, _, _ := Await(me, actor, false, left);
        if v != Woken {
          return if v.IsKilled? then WriteKilled else WriteStillBlocked;
        }
        left := left - 1;
      }
      r := Wrote(|data|);
    }
  }

  /** What came in, and the next part of the data. */
  lemma PrefixGrows(was: seq<byte>, data: seq<byte>, off: nat, n: nat)
    requires off + n <= |data|
    ensures was + data[..off] + data[off..][..n] == was + data[..off + n]
  {
    assert data[..off] + data[off..][..n] == data[..off + n];
  }

  lemma {:induction false} NewlinesSnoc(s: seq<Octet>, o: Octet)
    ensures Newlines(s + [o]) == Newlines(s) + if o.b == NEWLINE then 1 else 0
  {
    if s == [] {
      assert s + [o] == [o];
    } else {
      assert (s + [o])[1..] == s[1..] + [o];
      NewlinesSnoc(s[1..], o);
    }
  }
}
