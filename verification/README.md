# Verified models of the simulator, its UI protocol and the app tools

The simulator runs whole computers: a WebAssembly kernel per computer, child programs as threads, pipes,
a request bridge into the kernel, cables with faults, and a clock that is either real or virtual. This
project models the parts whose promises are about all interleavings, all runs or all inputs, and proves
those promises with Dafny. `dafny verify dfyconfig.toml` checks everything.

* **Scheduler and threads.** `Sched` is the scheduler's state with one function per critical section and the
  class `Scheduler` that changes it in place; `Pipes` the same for pipes. `Interleaving` is a step system of
  child threads, the kernel thread and the main loop: each critical section is one step, a waker takes two
  (change the data and take the waiters; unblock them), and a waiting actor three under the held scheduler
  lock. `InterleavingRuns` states what holds over every run. None of it relies on the periodic re-check that
  the waiting loop also has.
* **Kernel requests.** `KernelIpc` is the life of an IPC request in steps; `KernelLoop` is the worker loop
  (`Kernel`) with the request bridge (`Bridge`). The kernel keeps a record of the calls of its exports, and `KernelCalls`
  says what a pass over the queue has done with each request in terms of those calls. Every state of the loop is reached by a run of those steps,
  so what is proved of all runs holds for the loop, whatever the kernel's exports and the children do.
* **Virtual time.** `Sim` is one round of the main loop as a relation, with exactness and progress of the
  clock; `SimLoop` is the loop itself (`MainLoop`). What a round assumes of the children is not assumed but derived:
  `SimThreads` proves it of every run of their threads in the interleaving model.
* **UI protocol.** `Wire`, `UiSchema`, `UiCodec`, `UiChecks`: a deep embedding of the contract's types, the
  reference encoder and the strict decoder as functions, and their inversion in both directions for every
  well-formed contract. `UiCodecImpl` holds the encoder that appends to a buffer and the decoder that moves a
  cursor, proved equal to those functions.
* **Network.** `Tamper` is the frame mutator on an array with its one's complement sums. `Net` is the network
  as functions on its state, `NetLoop` the object `Network` that changes queues, heap, map, counters and
  flags; `NetRuns` and `NetIsolation` are about every run. The object keeps a ghost history of its calls, and
  its `Valid` says that the history is a run, so the properties of runs are properties of the object.
* **Screen, pictures, picker, mixing.** `Screen` and `ScreenLoop`: scroll detection and stable line indices.
  `Png` and `PngLoop`: the decoder and encoder. `Paths`, `Picker`, `PickerRuns`, `PickerLoop`: the file picker,
  whose object keeps a history in the same way.
  `NfcMix`: the mixing function of the card scheme.

The modules whose names end in `Meaning` say what the specification functions mean without calling them: octets, addresses,
clock times, positions in a file, presses of a button.

`Prelude.dfy` holds `Option`, bytes, words and a few facts about quotients.

Where the code does not do what its documentation says, the model follows the code:

* The frame mutator promises a packet that still verifies. It keeps that promise if and only if the checksum
  field is not also one of the words taken for an address, or the sum happens to be a multiple of 0xFFFF;
  `Tamper.ShortHeaderBreaks` is a packet with too short an IHL for which it does not.
* The main loop can pass a live kernel's tick: `Sim.LateTick` shows it, `Sim.TickPassed` says exactly when.
* A cap on the rounds of a millisecond is there so that the clock always gets on. Yet some round can make no progress if
  and only if, before it, no live kernel has anything to do and a child of a dead kernel waits for its answer or may still
  ask (`Sim.StallsExactlyIf`): the dead kernel answers with an error, does not count as having worked, and the child asks
  again. From every such state there are runs of any length in which the same child does so in every round and the clock
  never moves (`Sim.DeadKernelStalls`). A dead kernel whose children only sleep does not stop the clock
  (`Sim.OthersDoNotStall`).
* The PNG decoder says that it names what is wrong with a broken file. `Png.DecodeFaults` says exactly for
  which files it stops at an index out of bounds instead: those that break off in the last five bytes of
  a header that is otherwise acceptable. `Png.CutOffFaults` is one, of 24 bytes.
* A request is documented to stay pending when the kernel says so. It also stays when the call trapped:
  `KernelLoop.Kernel.Dispatch` says exactly when a request is completed, and with what.
* The picker joins the folder shown and a checked name. With an extension that holds a slash the save need not go into that
  folder: `PickerRuns.SaveStaysInFolder` says exactly when it does, `PickerRuns.SlashedTypeLeaves` is one that does not.

## Model

| member | source | states |
|---|---|---|
| Sched.RegisterInv | rust/simulator/src/sched.rs:104-111 | the new actor runs under an id that no actor has and is counted, the others stay as they are; `busy` equals the number of unblocked actors and every blocked deadline lies ahead |
| Sched.ExitInv | rust/simulator/src/sched.rs:114-123 | the actor is gone, no longer counted if it ran, and the others stay as they are; also for one that is already gone |
| Sched.UnblockInv | rust/simulator/src/sched.rs:125-134 | a wake counts the actor busy before it runs, once |
| Sched.WakeAllEffect | rust/simulator/src/sched.rs:180-197 | waking a list unblocks exactly its members, however often each is listed, and keeps the invariant |
| Sched.BlockInv | rust/simulator/src/sched.rs:142-177 | the actor is blocked until the deadline given, no longer counted if it ran, and the others stay as they are; the same invariant holds |
| Sched.AdvanceInv | rust/simulator/src/sched.rs:251-272 | the clock moves to the time given, never back; exactly the blocked actors whose deadline is reached are unblocked |
| Sched.ReleasedOnTime | rust/simulator/src/sched.rs:246-272 | moving to the next deadline releases exactly the actors due then, each at its own time |
| Sched.Scheduler.DoRegister | rust/simulator/src/sched.rs:104-111 | a new actor, running, under a new id |
| Sched.Scheduler.DoExit | rust/simulator/src/sched.rs:114-123 | the actor is gone and no longer counted |
| Sched.Scheduler.WaitRound | rust/simulator/src/sched.rs:142-177 | one look and one mark of `wait`: ready or timed out the actor runs, otherwise it is blocked until its deadline; `busy` counts it accordingly, clock and other actors stay |
| Sched.Scheduler.DoWakeAll | rust/simulator/src/sched.rs:187-197 | the loop over the ids does what waking them all means |
| Sched.Scheduler.NextActorDeadline | rust/simulator/src/sched.rs:246-249 | the earliest deadline among the blocked actors, if there is one |
| Sched.Scheduler.DoAdvanceTo | rust/simulator/src/sched.rs:251-272 | the clock and exactly the due actors change |
| Pipes.ApplyKeeps | rust/simulator/src/proc.rs:84-255 | every pipe operation keeps "what left, then what is held, is what came in" and the capacity |
| Pipes.FlipTakesWaiters | rust/simulator/src/proc.rs:65-185 | an operation that makes a pipe readable or writable takes all its waiters along |
| Pipes.TakeCountMeaning | rust/simulator/src/proc.rs:84-101 | a line-limited read takes the most bytes that fit and hold no more than the allowed newlines, the last of them at its end |
| Pipes.TakeAll | rust/simulator/src/proc.rs:84-106 | without a line limit a read takes as much as is held and fits |
| Pipes.RoomMeaning | rust/simulator/src/proc.rs:109-122 | a write accepts as much as fits, no more and no less |
| Pipes.ReadableMeaning | rust/simulator/src/proc.rs:128-140 | readable is data or no writer |
| Pipes.WritableMeaning | rust/simulator/src/proc.rs:162-176 | writable is room or no reader |
| Pipes.EndsAreCounted | rust/simulator/src/proc.rs:205-255 | opening and closing an end counts it, and closing the last one takes the waiters |
| Pipes.PipeObject.TryReadLines | rust/simulator/src/proc.rs:84-101 | the bytes returned are those that left, with their newline count, and the waiters taken are woken |
| Pipes.PipeObject.TryWriteBytes | rust/simulator/src/proc.rs:109-122 | how many bytes were accepted, which, and -1 exactly without a reader |
| Pipes.PipeObject.Read | rust/simulator/src/proc.rs:125-153 | never more than the buffer holds; a read that need not wait returns the first of what is held; an empty answer to a non-empty buffer only at end of file; otherwise the bytes that left last, under any interference |
| Pipes.PipeObject.Write | rust/simulator/src/proc.rs:156-185 | exactly the reported prefix of the data was accepted, -1 for none, under any interference; short only without a reader |
| Interleaving.StepKeeps | rust/simulator/src/sched.rs:10-17 | every step of every thread keeps the invariant of the whole system |
| InterleavingRuns.Reachable | rust/simulator/src/sched.rs:10-17 | so it holds in every reachable state |
| InterleavingRuns.NoLostWakeup | rust/simulator/src/sched.rs:10-17 | an actor blocked although its data, room, end of file, answer or kill is there is on the list of a waker that will unblock it, and does |
| InterleavingRuns.Quiescence | rust/simulator/src/sched.rs:217-231 | `busy` is 0 exactly when every actor sleeps, and then no wake-up is on its way, no predicate holds and no deadline has passed |
| InterleavingRuns.FallsAsleep | rust/simulator/src/sched.rs:142-177 | a wait that is not over puts the actor to sleep: blocked until its deadline, among the waiters, not counted |
| InterleavingRuns.DoesNotWait | rust/simulator/src/sched.rs:142-158 | a wait whose data, kill or deadline is there already returns at once |
| InterleavingRuns.WaitEnds | rust/simulator/src/sched.rs:142-158 | so does a sleeper that looks again |
| InterleavingRuns.WaitGoesOn | rust/simulator/src/sched.rs:142-177 | one that looks in vain sleeps on |
| InterleavingRuns.KillReaches | rust/simulator/src/proc.rs:420-431 | a kill and the wake-up after it make the child runnable |
| InterleavingRuns.AnswerReaches | rust/simulator/src/ipc.rs:86-89 | an answer and the wake-up after it make its caller runnable |
| InterleavingRuns.DeadlineReaches | rust/simulator/src/sched.rs:251-272 | a clock that reaches the deadline ends the wait |
| InterleavingRuns.ClockMoves | rust/simulator/src/sched.rs:251-272 | to the time given, never back, and nobody is woken before his time |
| InterleavingRuns.SpawnStarts | rust/simulator/src/sched.rs:104-111 | a child starts running and counted, with its terminal |
| InterleavingRuns.LeaveEnds | rust/simulator/src/sched.rs:114-123 | one that leaves is counted no more |
| InterleavingRuns.ExitIsReported | rust/simulator/src/proc.rs:381-394 | an exit is reported if and only if the child is past it and its output has been read |
| InterleavingRuns.SomebodySleeps | rust/simulator/src/sched.rs:217-231 | there is a reachable state in which an actor sleeps and nobody is busy |
| InterleavingRuns.PipesAreFifos | rust/simulator/src/proc.rs:84-185 | along every run every pipe is a bounded FIFO whose history only grows, and the clock never goes back |
| InterleavingRuns.ZombieWritesNothing | rust/simulator/src/proc.rs:371-379 | a child that reported its exit writes nothing more to its terminal |
| InterleavingRuns.NoOutputCutOff | rust/simulator/src/proc.rs:371-405 | once an exit is reported every byte the child ever writes has been read; an entry is removed only after that report |
| KernelIpc.TakeIsDeterministic | rust/simulator/src/ipc.rs:80-84 | requests of different sessions are taken in one order, whatever order they came in |
| KernelIpc.StepKeeps | rust/simulator/src/kernel.rs:735-755 | every step moves a request between incoming, waiting, answered and dropped without losing or copying it |
| KernelIpc.ExactlyOnePlace | rust/simulator/src/ipc.rs:54-89 | over every run each request is in exactly one place, answered at most once, dropped only if its caller gave up |
| KernelIpc.LifeOfACall | rust/simulator/src/kernel.rs:735-755 | one call can be answered, wait on, be dropped once given up, and be refused by a kernel that died |
| KernelIpc.OrderKept | rust/simulator/src/kernel.rs:735-755 | what is left of the pending requests keeps its order and stays ahead of newer ones |
| KernelLoop.Bridge.TakeIncoming | rust/simulator/src/ipc.rs:80-84 | all incoming requests and no others, in session order; none stays |
| KernelLoop.Kernel.Call | rust/simulator/src/kernel.rs:597-627 | a dead kernel is not called; a live one is dead afterwards exactly if the call trapped by itself, or was stopped and did not recover; an answer only if the call returned |
| KernelLoop.Kernel.Recover | rust/simulator/src/kernel.rs:629-641 | a kernel that fails to recover is dead, and no other |
| KernelLoop.Kernel.Tick | rust/simulator/src/kernel.rs:651-657 | the next tick is when the kernel asked for it, never before now; without an answer, or with a negative one, after the idle interval |
| KernelLoop.Kernel.Dispatch | rust/simulator/src/kernel.rs:758-779 | arguments that do not fit are refused without a call; otherwise the kernel is called once, with the arguments in place, and the request is completed exactly if the call returned something else than pending, with an error or with status and payload from the result region; if not it goes back to the end of the queue |
| KernelLoop.Kernel.ServeOne | rust/simulator/src/kernel.rs:738-753 | one turn: dropped if given up, refused by a dead kernel, otherwise dispatched; what it does to queue, calls and answers |
| KernelLoop.Kernel.ServiceIpc | rust/simulator/src/kernel.rs:735-755 | every request of the queue has its turn, in order; what stays is exactly what the kernel was asked about and did not answer; the completions are counted exactly; with a dead kernel nothing stays |
| KernelLoop.Kernel.Drain | rust/simulator/src/kernel.rs:686-692 | a dead kernel fails everything it held and everything that had come in, in order, each with an error |
| KernelLoop.Kernel.Step | rust/simulator/src/kernel.rs:685-732 | it works exactly if the kernel lives and an event, child activity, a new request or its tick is there; then each event is delivered, the kernel ticks, everything that waited and everything that came in has its turn, and it ticks again exactly if something was completed; after a fault the next iteration leaves no earlier request unanswered; an idle one changes nothing; each is one that `Sim` allows a kernel |
| KernelCalls.EveryRequestIsAsked | rust/simulator/src/kernel.rs:735-755 | in a pass that the kernel survives every request is put to it, unless given up or with arguments that do not fit |
| KernelCalls.NothingElseIsCalled | rust/simulator/src/kernel.rs:735-755 | the calls made and the answers given in a pass are those of its turns, one each and in order |
| KernelCalls.TurnsStand | rust/simulator/src/kernel.rs:735-779 | what became of each request: asked and answered with what the call returned, asked and not answered, given up, or refused for a reason |
| KernelCalls.WaitingMeaning | rust/simulator/src/kernel.rs:746-747 | exactly those wait on that the kernel was asked about and did not answer |
| KernelCalls.DeathHasACause | rust/simulator/src/kernel.rs:742-745 | a kernel that is dead before a turn was dead when the pass began, or a call of an earlier turn gave no answer |
| KernelCalls.FromLe32Octets | rust/simulator/src/kernel.rs:777 | the status octet by octet, lowest first, two's complement |
| KernelCalls.ReadResultMeaning | rust/simulator/src/kernel.rs:774-778 | where the status and where the payload is read, and how much of it |
| Sim.PumpIsExact | rust/simulator/src/sim.rs:220-285 | a round never turns the clock back or past a delayed frame, a sleeper's deadline or the limit, and hands every frame over at its due millisecond |
| Sim.SomeRoundIsPossible | rust/simulator/src/sim.rs:253-285 | from every state some round is possible, so no statement about all rounds is empty |
| Sim.TargetIsExact | rust/simulator/src/sim.rs:232-285 | a quiet round moves the clock on, and past nothing that is scheduled |
| Sim.TargetIsScheduled | rust/simulator/src/sim.rs:232-285 | to the first time at which a frame, a sleeper, a live kernel or the limit is due, if there is one and the limit is not behind; else by one millisecond |
| Sim.SettleMeaning | rust/simulator/src/sim.rs:266-285 | busy rounds are counted and the last one allowed ends the millisecond; with children still running the clock stays; an idle round goes to the next thing to do |
| Sim.TickPassed | rust/simulator/src/sim.rs:253-285 | a live kernel's tick is passed if and only if it asked for this millisecond again and this round uses up the busy rounds of the millisecond |
| Sim.LateTick | rust/simulator/src/sim.rs:253-285 | a kernel whose tick is passed |
| Sim.RoundProgresses | rust/simulator/src/sim.rs:253-285 | a round before the deadline uses up a bounded measure if and only if it is not one in which nothing worked and yet a child runs on; no round overshoots |
| Sim.PumpProgresses | rust/simulator/src/sim.rs:253-285 | without a dead kernel every round before the deadline uses up a bounded measure, even if all rounds are busy |
| Sim.BoundedProgress | rust/simulator/src/sim.rs:299-318 | whatever kernels die, a run has at most (deadline - now) * (cap + 1) + cap rounds that do not stall, and never overshoots the deadline |
| Sim.NoDeadKernelNoStall | rust/simulator/src/sim.rs:299-318 | while no kernel is dead no round stalls, so all rounds are bounded |
| Sim.StallsExactlyIf | rust/simulator/src/sim.rs:253-285 | some round makes no progress if and only if no live kernel has anything to do and a child of a dead kernel asks, or runs and may ask |
| Sim.DeadKernelStalls | rust/simulator/src/sim.rs:253-318 | from every such state there are runs of any length in which the same child asks in every round, is answered with an error and asks again, and the clock never moves |
| Sim.SomeWorldStalls | rust/simulator/src/kernel.rs:686-692 | there is such a state |
| Sim.OthersDoNotStall | rust/simulator/src/sim.rs:278-284 | while all children sleep and none asks a dead kernel, no round stalls |
| SimThreads.ChildrenMayIsDerived | rust/simulator/src/sched.rs:104-197 | in every reachable state, between two looks of the main loop the children change what it sees only as `Sim.ChildrenMay` says: nothing happens on a computer where nobody runs, requests stay, and a new one needs somebody to make it |
| SimThreads.SleepLasts | rust/simulator/src/sched.rs:217-231 | once no actor is busy the children alone leave everybody asleep and everything as it is |
| SimThreads.RunCoded | rust/simulator/src/ipc.rs:54-78 | along every run waiters and wake-ups stay within a computer, a child that asked only waits, and whoever is killed asleep is woken by the killer |
| SimLoop.MainLoop.NextTime | rust/simulator/src/sim.rs:232-251 | the minimum of all the times that must not be jumped over |
| SimLoop.MainLoop.PumpVirtual | rust/simulator/src/sim.rs:253-285 | the loop makes exactly a round of the model: after a busy one the count and the clock, after an idle one the first scheduled time |
| SimLoop.MainLoop.RunUntil | rust/simulator/src/sim.rs:299-318 | it ends at the predicate, at the deadline or with the wall-clock budget; without a dead kernel within (deadline - now) * (cap + 1) + cap rounds |
| Wire.DecEncInt | scripts/gen-ui-proto.py:196-199 | an integer in range comes back from its little-endian bytes, signed or not |
| Wire.EncDecInt | scripts/gen-ui-proto.py:255-256 | bytes of the width come back from the integer they decode to |
| UiSchema.FlagsMeaning | scripts/gen-ui-proto.py:298-302 | a value passes the mask test exactly if each of its bits is one of the flag bits |
| UiCodec.AtLeastMinSize | scripts/gen-ui-proto.py:153-166 | an encoding is never shorter than the minimum size of its type, through arrays, structs and unions |
| UiCodec.ItemsAtLeastMinSize | scripts/gen-ui-proto.py:303-307 | so the count guard refuses no valid array |
| UiCodec.DecodeEncode | scripts/gen-ui-proto.py:202-333 | decoding the encoding of a conforming value gives the value and leaves what follows, for every well-formed type |
| UiCodec.EncodeDecode | scripts/gen-ui-proto.py:202-333 | what decodes conforms, and encodes to exactly the bytes it was decoded from |
| UiCodec.MessageRoundTrip | scripts/gen-ui-proto.py:235-367 | every conforming message that fits the limit comes back whole |
| UiCodec.Canonical | scripts/gen-ui-proto.py:348-367 | an accepted buffer is the encoding of the message it decodes to |
| UiCodec.Injective | scripts/gen-ui-proto.py:348-367 | no two buffers decode to the same message |
| UiChecks.SortedArrayHasKeys | scripts/gen-ui-proto.py:336-345 | the sort key of every decoded item exists, so a sorted array is refused or accepted and nothing else |
| UiChecks.ValidatedVariantIsReadable | scripts/gen-ui-proto.py:327-331 | everything the node validation looks up is there |
| UiCodecImpl.PyEnc | scripts/gen-ui-proto.py:202-232 | the encoder appends exactly the encoding |
| UiCodecImpl.PyEncodeMessage | scripts/gen-ui-proto.py:235-241 | opcode, flags, length and body |
| UiCodecImpl.PyDec | scripts/gen-ui-proto.py:268-333 | the cursor ends where the decoder's rest begins; the same refusals, which `UiMeaning` tells octet by octet |
| UiCodecImpl.PyDecode | scripts/gen-ui-proto.py:348-367 | exactly one whole message, or the reason why not |
| UiMeaning.IntFromOctets | scripts/gen-ui-proto.py:255-256 | what each octet of an integer weighs, for every width, and where the sign is |
| UiMeaning.HeaderChecks | scripts/gen-ui-proto.py:348-364 | the first eight octets one by one, and the refusal that each wrong one gives |
| UiMeaning.IntRead | scripts/gen-ui-proto.py:259-265 | refused exactly if out of the bounds, or none of the choices |
| UiMeaning.BoolRead | scripts/gen-ui-proto.py:271-275 | one octet, and only 0 and 1 |
| UiMeaning.TextRead | scripts/gen-ui-proto.py:276-289 | length, limit (4096 without one of its own) and UTF-8, with their refusals |
| UiMeaning.BytesRead | scripts/gen-ui-proto.py:276-284 | length and limit, that of a message without one of its own |
| UiMeaning.EnumRead | scripts/gen-ui-proto.py:293-297 | the name that goes with the code, refused exactly if there is none |
| UiMeaning.FlagsRead | scripts/gen-ui-proto.py:298-302 | refused exactly if negative or with a bit that no flag has |
| UiMeaning.BitMeaning | scripts/gen-ui-proto.py:298-302 | a bit is the binary digit of that weight |
| UiMeaning.CountRead | scripts/gen-ui-proto.py:303-307 | more items than the limit, or than 65535, are refused before any is read |
| UiMeaning.ItemLimit | scripts/gen-ui-proto.py:308-309 | an item limit other than 0 bounds every text of the array, otherwise 4096 |
| UiMeaning.ItemsUnbounded | scripts/gen-ui-proto.py:308-309 | bounds and choices of the array's field are not for its items |
| UiMeaning.SortedRead | scripts/gen-ui-proto.py:310-314 | for unions and for structs that begin with a scalar: a sorted array is refused exactly if some item does not precede every later one (by variant tag; by integer, by text or bytes at the first difference), and otherwise read like an unsorted one |
| UiMeaning.BytesOrder | scripts/gen-ui-proto.py:342-344 | the first difference decides, and a proper prefix comes first |
| UiMeaning.PropsRead | scripts/gen-ui-proto.py:327-332 | a validated variant is refused exactly if some property is not one of its kind's |
| UiMeaning.ItemInPlace | scripts/gen-ui-proto.py:220-223 | each item's encoding stands behind those before it and ahead of those after it |
| UiMeaning.FieldInPlace | scripts/gen-ui-proto.py:224-226 | and so does each field's |
| UiMeaning.TagFirst | scripts/gen-ui-proto.py:227-231 | a union's tag stands first and names the variant |
| UiMeaning.MinSizeIsReached | scripts/gen-ui-proto.py:153-166 | the minimum size is the size of some value, so the count guard could not be stricter |
| Tamper.FoldMeaning | rust/simulator/src/net.rs:103-105 | folding the carries keeps the sum modulo 0xFFFF, and only 0 folds to 0 (section 1 of RFC 1071) |
| Tamper.SumMeaning | rust/simulator/src/net.rs:94-98 | an octet weighs 256 at an even place and 1 at an odd one |
| Tamper.ParseMeaning | rust/simulator/src/net.rs:63-86 | which frames are changed, by their octets: IPv4, either port, UDP or TCP, payload inside the packet; and where header, payload and checksum are |
| Tamper.EveryBitCanBeHit | rust/simulator/src/net.rs:87-88 | every bit of every payload octet is flipped by some draw |
| Tamper.HeadStays | rust/simulator/src/net.rs:63-113 | the link-layer header is left alone |
| Tamper.FlipsOneBit | rust/simulator/src/net.rs:87-88 | the flip changes exactly the chosen bit |
| Tamper.FieldCounts | rust/simulator/src/net.rs:92-111 | a checksum written into the zeroed field counts once in the receiver's sum, twice if the field is also taken for an address |
| Tamper.Repaired | rust/simulator/src/net.rs:92-111 | the repaired packet verifies if and only if the field is apart from the addresses or the sum was a multiple of 0xFFFF, including odd lengths and the UDP rule of RFC 768 |
| Tamper.Repair | rust/simulator/src/net.rs:92-111 | in place: zeroed field, sum over addresses, protocol, length and segment, complement written |
| Tamper.TamperFrame | rust/simulator/src/net.rs:63-113 | false changes nothing; true flips the chosen bit and touches nothing else but the checksum field |
| Tamper.TamperedStillVerifies | rust/simulator/src/net.rs:60-113 | with headers of legal length (section 3.1 of RFC 791 and of RFC 9293) one payload bit changes and the packet verifies, or had no checksum and still has none |
| Tamper.ShortHeaderBreaks | rust/simulator/src/net.rs:63-113 | a packet with too short an IHL that no longer verifies |
| Net.OrderedIsTheSortedList | rust/simulator/src/net.rs:475-492 | the order of handling is the only list of the due copies that increases in (due, id) |
| Net.DeliverDueTakesTheDue | rust/simulator/src/net.rs:475-492 | exactly the copies due leave heap and map, which still agree; the others are later and unchanged |
| Net.TransmitKeeps | rust/simulator/src/net.rs:378-443 | a transmission keeps the invariant: heap and map agree, and over all transmissions of a segment those not dropped made one copy or two each |
| Net.CleanIsFaultless | rust/simulator/src/net.rs:404-407 | the short cut for fault-free segments does what the fault path would do, whatever is drawn |
| Net.CableProblemMeaning | rust/simulator/src/net.rs:261-276 | a segment is made exactly of two or more different uncabled NICs |
| Net.AddSegmentKeeps | rust/simulator/src/net.rs:261-296 | a NIC is a member of a segment exactly when its cable says so |
| Net.PulledCable | rust/simulator/src/net.rs:311-359 | a pulled cable takes carrier from both ends of a link, and from one member alone of a hub |
| Net.MacsDiffer | rust/simulator/src/net.rs:197-206 | two faces have the same address exactly if they agree in what the address has room for |
| NetMeaning.FrameArrives | rust/simulator/src/net.rs:378-472 | on a fault-free segment a frame for another member that is plugged in and up (its address, a group, or it takes everything) ends that member's queue, without the oldest of 256, and sets its computer's flag |
| NetMeaning.FrameSkips | rust/simulator/src/net.rs:134-142 | whatever the faults: the sender, other segments, members unplugged or down, and members with another address that do not take everything stay as they are |
| NetMeaning.NothingSent | rust/simulator/src/net.rs:378-398 | without carrier nothing happens |
| NetMeaning.FrameDropped | rust/simulator/src/net.rs:408-412 | a dropped frame is counted and nothing else |
| NetMeaning.OneCopy | rust/simulator/src/net.rs:413-441 | a copy is delivered now, or held until the segment's delay, and at least a millisecond more if held back, is over |
| NetMeaning.TwoCopies | rust/simulator/src/net.rs:424-441 | a doubled frame makes two, each with a delay of its own |
| NetMeaning.LateCopyArrives | rust/simulator/src/net.rs:475-492 | a held copy that is due reaches a member as one sent now would; if its sender was unplugged meanwhile it reaches nobody |
| NetMeaning.NewComputer | rust/simulator/src/net.rs:200-227 | its faces: up, plugged in, uncabled, empty, with an address that spells face and number |
| NetMeaning.CableRefused | rust/simulator/src/net.rs:261-276 | the reason is the first member that is listed twice or cabled already |
| NetMeaning.NewSegment | rust/simulator/src/net.rs:277-296 | it is live, with its members and faults and nothing counted |
| NetMeaning.FaceDown | rust/simulator/src/net.rs:318-324 | a face set down has an empty queue, neither sends nor hears |
| NetMeaning.OldestTaken | rust/simulator/src/net.rs:499-512 | going round from the given turn, the first face with a frame gives its oldest |
| NetRuns.RunOk | rust/simulator/src/net.rs:261-516 | membership, heap and map, queue bounds and accounting hold in every reachable state |
| NetRuns.StepSpreads | rust/simulator/src/net.rs:445-472 | after a step each queue is the newest 256 of what it held and what its NIC hears, and a flag is set exactly for those that heard something |
| NetRuns.TransmitAccounts | rust/simulator/src/net.rs:378-443 | each transmission is accounted for: without carrier nothing changes; a drop is counted and nothing else changes; otherwise one copy, or two if duplicated, are offered at once or held under new identifiers until after now |
| NetIsolation.QueueIsSuffix | rust/simulator/src/net.rs:445-472 | in every run each queue is a suffix, of at most 256 frames, of all its NIC ever accepted |
| NetIsolation.Isolation | rust/simulator/src/net.rs:378-472 | every queued frame was sent by another NIC of the same segment that had carrier, and handed over while the receiver was up, plugged in and accepting |
| NetIsolation.IrqStays | rust/simulator/src/net.rs:470-516 | after a frame was queued the computer's flag stays set until taken |
| NetIsolation.IrqMeansFrame | rust/simulator/src/net.rs:470-516 | a set flag means a frame was queued for that computer since it was last taken |
| NetIsolation.HandledOnce | rust/simulator/src/net.rs:475-492 | no delayed copy is handled twice in a run |
| NetIsolation.RxComesNearer | rust/simulator/src/net.rs:499-512 | a call takes the face's oldest frame or brings its turn nearer |
| NetIsolation.RxIsFair | rust/simulator/src/net.rs:498-512 | in every run, of as many calls as the computer has faces one returns the frame at the head of a face's queue, whatever else happens, if that queue does not overflow and its NIC is not set down |
| NetLoop.Network.DoAddNode | rust/simulator/src/net.rs:200-227 | the new faces, their list and a cleared flag |
| NetLoop.Network.DoAddSegment | rust/simulator/src/net.rs:261-296 | the first problem found, or the segment with its members cabled |
| NetLoop.Network.DoSetAdmin | rust/simulator/src/net.rs:318-324 | down also empties the queue |
| NetLoop.Network.DoSetCable | rust/simulator/src/net.rs:350-358 | the link as a whole, or the member alone |
| NetLoop.Network.DoDeliver | rust/simulator/src/net.rs:445-472 | the loop over the members reaches exactly those who hear the copy, each once |
| NetLoop.Network.DoDeliverDue | rust/simulator/src/net.rs:475-492 | the loop over the heap handles the due copies in order, and tells whether there were any |
| NetLoop.Network.NextDelivery | rust/simulator/src/net.rs:494-496 | the true minimum of the due times |
| NetLoop.Network.DoTransmit | rust/simulator/src/net.rs:378-443 | false exactly for frames of illegal size; otherwise the transmission of the model |
| NetLoop.Network.DoRxAny | rust/simulator/src/net.rs:499-512 | round robin from the given turn, and the next turn |
| Screen.ScrollDetected | rust/simulator/src/screen.rs:186-214 | a real scroll is never overestimated, and found exactly if and only if no smaller shift looks the same |
| Screen.ScrollMeaning | rust/simulator/src/screen.rs:186-214 | what each answer says about the two snapshots |
| Screen.SnapshotMeaning | rust/simulator/src/screen.rs:75-109 | a framebuffer octet by octet: mark, sides, cursor, counter, and each row as its cells show it without the blanks at the end |
| Screen.UpdateMeaning | rust/simulator/src/screen.rs:75-137 | the view shows the snapshot with the cursor inside; what counts as a change, a loss or a resize |
| Screen.PushAllKeepsIndices | rust/simulator/src/screen.rs:65-71 | pushing appends, evicts only the oldest and keeps the others' indices |
| Screen.UpdateKeepsIndices | rust/simulator/src/screen.rs:75-137 | `base` is always where the scrollback ends, and never decreases |
| Screen.UpdateKeepsLine | rust/simulator/src/screen.rs:75-137 | a line that scrolled off, and one above the old cursor that can be told apart, keeps index and text |
| Screen.ScrollbackIsStable | rust/simulator/src/screen.rs:1-10 | over any run of snapshots a line below `base` never changes until evicted |
| Screen.LinesFromMeaning | rust/simulator/src/screen.rs:144-164 | a contiguous run from the index asked for to the last row that is not blank |
| ScreenLoop.DetectScroll | rust/simulator/src/screen.rs:193-214 | the search finds the least matching shift, else the fallback |
| ScreenLoop.Screen.DoUpdate | rust/simulator/src/screen.rs:75-137 | the framebuffer is read, compared and taken over; incomplete ones change nothing |
| ScreenLoop.Screen.ReadLines | rust/simulator/src/screen.rs:146-164 | the loops give exactly those lines |
| Png.UnfilterFilter | rust/crates/ecm-apps-ui/src/png.rs:88-111 | reconstruction undoes each of the five filters (section 9 of ISO/IEC 15948), for every pixel width |
| Png.FilterUnfilter | rust/crates/ecm-apps-ui/src/png.rs:88-111 | and filtering undoes reconstruction |
| Png.ReconstructInverts | rust/crates/ecm-apps-ui/src/png.rs:83-115 | the original rows come back, whatever filter each row has |
| Png.ExpandRefuses | rust/crates/ecm-apps-ui/src/png.rs:116-126 | only an index beyond the palette is refused; four bytes for each pixel otherwise |
| Png.WalkChunks | rust/crates/ecm-apps-ui/src/png.rs:55-76 | the walk over written chunks collects exactly their image data, palette and alphas |
| Png.DecodeFaults | rust/crates/ecm-apps-ui/src/png.rs:30-46 | exactly which files stop the decoder at an index out of bounds |
| Png.CutOffFaults | rust/crates/ecm-apps-ui/src/png.rs:38-46 | a file of 24 bytes that stops the decoder |
| Png.DecodeSize | rust/crates/ecm-apps-ui/src/png.rs:38-127 | a decoded picture has the header's size, 1 to 512 a side, and four bytes a pixel |
| Png.FileDecodes | rust/crates/ecm-apps-ui/src/png.rs:38-127 | any 8-bit, non-interlaced file decodes to its picture: every colour type, filter choice and arrangement of chunks |
| Png.EncodeDecodes | rust/crates/ecm-apps-ui/src/png.rs:38-240 | a picture of 1 to 512 pixels a side comes back from its encoding if and only if it has four bytes for each pixel |
| PngMeaning.PaethMeaning | rust/crates/ecm-apps-ui/src/png.rs:98-109 | whichever of left, above and above left is nearest to left + above - above left, the earlier one of a tie (section 9 of ISO/IEC 15948) |
| PngMeaning.RowRebuilt | rust/crates/ecm-apps-ui/src/png.rs:88-111 | each octet of a row from its own, the left, the upper and the upper left one, for each of the five filters |
| PngMeaning.RowsRefused | rust/crates/ecm-apps-ui/src/png.rs:83-115 | refused exactly if some row has an unknown filter |
| PngMeaning.RowsRebuilt | rust/crates/ecm-apps-ui/src/png.rs:83-115 | otherwise each row is rebuilt from its data and the row above |
| PngMeaning.PixelsMeaning | rust/crates/ecm-apps-ui/src/png.rs:116-126 | red, green, blue and alpha of each pixel, for each colour type |
| PngMeaning.PaletteMeaning | rust/crates/ecm-apps-ui/src/png.rs:64 | three octets an entry, red first, opaque |
| PngMeaning.GatherMeaning | rust/crates/ecm-apps-ui/src/png.rs:62-75 | what each kind of chunk adds; alphas only for palette pictures |
| PngMeaning.BrokenTail | rust/crates/ecm-apps-ui/src/png.rs:58-61 | a chunk longer than the file is refused, fewer than eight octets are nothing |
| PngMeaning.HeaderMeaning | rust/crates/ecm-apps-ui/src/png.rs:30-54 | what is wrong with a header, by its octets |
| PngMeaning.DataMeaning | rust/crates/ecm-apps-ui/src/png.rs:77-82 | data that do not inflate, or to another length |
| PngMeaning.ChunkMeaning | rust/crates/ecm-apps-ui/src/png.rs:225-231 | length, kind, data, and the checksum of kind and data |
| PngMeaning.EncodedHeader | rust/crates/ecm-apps-ui/src/png.rs:232-236 | sides, eight bits, true colour with alpha, zeros |
| PngLoop.UnfilterInto | rust/crates/ecm-apps-ui/src/png.rs:88-111 | one row filled from the left in place; false exactly for an unknown filter |
| PngLoop.ReconstructRows | rust/crates/ecm-apps-ui/src/png.rs:83-115 | all rows, each from the one above |
| PngLoop.WalkFile | rust/crates/ecm-apps-ui/src/png.rs:55-76 | the loop over the chunks |
| PngLoop.DecodePng | rust/crates/ecm-apps-ui/src/png.rs:38-127 | picture, reason or fault, as the model says |
| PngLoop.EncodePng | rust/crates/ecm-apps-ui/src/png.rs:207-240 | signature, header, deflated rows and end, with lengths and checksums; stops for pictures without width |
| Paths.NormalizeIdempotent | rust/crates/ecm-apps-ui/src/picker.rs:101-118 | a normalized path has only ordinary components and normalizes to itself |
| Paths.UnderMeaning | rust/crates/ecm-apps-ui/src/picker.rs:120-122 | the test on strings is exact: below a directory, normalized or not, if and only if its components come first |
| Picker.AllowedMeaning | rust/crates/ecm-apps-ui/src/picker.rs:125-135 | in components, for every app name: never the app database, devices or the key; of the apps' data the folder and the app's own part |
| Picker.MaySaveMeaning | rust/crates/ecm-apps-ui/src/picker.rs:138-140 | and never into programs, settings or system data |
| Picker.EntriesMeaning | rust/crates/ecm-apps-ui/src/picker.rs:225-231 | the entries shown are exactly the offered ones of the listing, folders first, then by name |
| Paths.PartsAppend | rust/crates/ecm-apps-ui/src/picker.rs:103-118 | one more component climbs, or goes up, from wherever a path leads |
| PickerRuns.UpIsParent | rust/crates/ecm-apps-ui/src/picker.rs:241-244 | going up opens the parent folder, and the top folder at the top |
| PickerRuns.SaveStaysInFolder | rust/crates/ecm-apps-ui/src/picker.rs:149-176 | a save goes directly into the folder shown, under one ordinary component, if and only if the name needs no extension or the one it gets holds no slash |
| PickerRuns.SlashedTypeLeaves | rust/crates/ecm-apps-ui/src/picker.rs:42-57 | a permitted save that leaves the folder shown |
| PickerRuns.OpenAnswer | rust/crates/ecm-apps-ui/src/picker.rs:262-268 | an answer to open is a shown file, permitted and of a wanted type |
| PickerRuns.SaveAnswer | rust/crates/ecm-apps-ui/src/picker.rs:269-291 | an answer to save is permitted, no folder, and asked about if it exists |
| PickerRuns.OpenedWasListed | rust/crates/ecm-apps-ui/src/picker.rs:219-292 | over every run: the file opened was listed in its folder |
| PickerRuns.SavedWasAsked | rust/crates/ecm-apps-ui/src/picker.rs:219-292 | over every run: an existing file is overwritten only after an earlier press asked about that very path, with folder, name and question unchanged since |
| PickerMeaning.MatchesMeaning | rust/crates/ecm-apps-ui/src/picker.rs:143-145 | by what follows the last dot, which is not the first character |
| PickerMeaning.NameMeaning | rust/crates/ecm-apps-ui/src/picker.rs:149-168 | what is wrong with a typed name, and what it becomes |
| PickerMeaning.FolderOpens | rust/crates/ecm-apps-ui/src/picker.rs:219-239 | which entries are shown, folders before files and each kind in dictionary order; what a refusal changes |
| PickerMeaning.ShownAsOften | rust/crates/ecm-apps-ui/src/picker.rs:225-231 | no entry is shown more or less often than the folder has it |
| PickerMeaning.ChooseAndOpen | rust/crates/ecm-apps-ui/src/picker.rs:247-268 | a file chosen and the button pressed: the answer is its path |
| PickerMeaning.ChooseFolder | rust/crates/ecm-apps-ui/src/picker.rs:247-253 | a folder chosen is the folder shown |
| PickerMeaning.SaveAsNew | rust/crates/ecm-apps-ui/src/picker.rs:269-291 | a free name takes one press; a folder and a place not allowed are refused |
| PickerMeaning.SaveOver | rust/crates/ecm-apps-ui/src/picker.rs:284-289 | an existing file takes two: the first asks, the second answers |
| PickerLoop.NormalizePath | rust/crates/ecm-apps-ui/src/picker.rs:103-118 | the stack loop normalizes |
| PickerLoop.Picker.DoOpenDir | rust/crates/ecm-apps-ui/src/picker.rs:219-239 | the new folder with its entries, or the message and nothing else |
| PickerLoop.Picker.DoUp | rust/crates/ecm-apps-ui/src/picker.rs:241-244 | opens the normalized parent |
| PickerLoop.Picker.DoSelect | rust/crates/ecm-apps-ui/src/picker.rs:247-259 | the dialog after a row is chosen, for folders and for files |
| PickerLoop.Picker.DoConfirm | rust/crates/ecm-apps-ui/src/picker.rs:262-292 | answer, question or message |
| NfcMix.RoundUndone | scripts/cards-vectors.py:26-33 | the round's steps undone in reverse order give the words back, and the other way round |
| NfcMix.WordsUndoable | scripts/cards-vectors.py:16-17 | wrapping addition, xor and the rotation can be undone on 32-bit words |
| NfcMix.PackUnpack | scripts/cards-vectors.py:23-34 | sixteen bytes come back from the four little-endian words |
| NfcMix.MixIsPermutation | scripts/cards-vectors.py:20-34 | with any fixed key, mixing is a permutation of all 128-bit blocks, with the inverse given |
| NfcMix.MixIsInjective | scripts/cards-vectors.py:20-34 | different blocks never mix to the same |
| NfcMix.Mix | scripts/cards-vectors.py:20-34 | the loop over four variables computes it |

## Left out

- Pipes.PipeObject.Read: follows at most a given number of blocking rounds and reports when they are used up; that a blocked reader is woken is `InterleavingRuns.NoLostWakeup`.
- Pipes.PipeObject.Write: the same; lengths are unbounded integers, so the conversion of a length to 32 bits is not modelled.
- KernelLoop.Kernel.Dispatch: the result region holds at least the four octets of a status; loading a kernel checks only that it is not empty and lies inside the memory, and with a smaller one reading the status stops at an index out of bounds.
- SimThreads.ChildrenMayIsDerived: which sleepers a leaving child wakes is not followed through its pipes; every sleeping sibling counts as one it may wake.
- SimLoop.MainLoop.RunUntil: the wall-clock budget is the number of rounds it lasts, and what children, kernels and network do in a round comes from an environment.
- NetLoop.Network.DoSetCable: takes the NIC; finding it by the text of an endpoint, and a segment by its name, is not modelled (`DoSetSegment` takes the segment).
- NetLoop.Network.DoDeliverDue: the heap is a set with its least entry and NICs and segments are values in sequences; the layout of the binary heap and of the hash map is not modelled.
- Net.TransmitKeeps: the counters of sent, received, overflowed and tampered frames and of bytes, the capture mirror and capture files are not modelled; the random generator is reduced to coins.
- PngLoop.EncodePng: the zlib pair and the checksum are parameters.
- NfcMix.RoundUndone: words are integers below 2 to the 32nd; joining the halves of a rotation is their sum, and xor is defined bit by bit.
- PickerLoop.Picker.DoConfirm: error texts are kinds of problems; lower case, trimming and control characters are parameters.
- UiCodec.MessageRoundTrip: text encoding is an abstract pair of inverse functions; types are finite trees, so a contract with a cyclic type is not represented.
- The waiting loop's periodic re-check, real-clock mode, condition variables, operating system threads and mutex poisoning: every proof holds without them.
- `poll_oneoff` and the other host functions of child programs: `readable` and `register_waiter` are separate critical sections there, and make no promise to prove.
- Kernel exports, child programs and interrupts: arbitrary, as long as they go through the modelled calls.
- Generated Rust and Java codecs, test vectors and JSON: text output.
- The picker's command line, start folder, titles and widgets; the screen's cells, cursor line and dump; the cache of decoded images.
- `cell.rs` and the bridge, routing and link protocols: their code is not part of this model.
- HMAC and SHA-256 of the card schemes: library calls.
