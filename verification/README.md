# Models of the Sniper simulator's concurrent, stateful and graph code, with proofs

Sniper is a multicore simulator with a set of tools around it. This project models the parts of it whose correctness
is hard to see, in Dafny, and proves what they promise. `dafny verify dfyconfig.toml` checks everything.

| files | what they model |
|---|---|
| `Digraph`, `TarjanSearch`, `Gprof2dot` | cycle detection in a call graph: `Profile.find_cycles`, `_tarjan`, `Cycle.add_function` |
| `Sums`, `TimePropagation`, `Gprof2dotTimes`, `Gprof2dotIntegrate` | time propagation along calls: `call_ratios`, `integrate` |
| `GenProfile` | the call-stack profile: visiting order, totals, folding |
| `BuildStack` | merging measured values into a stack of components |
| `Barrier` | `Barrier::wait` over `ConditionVariable`, all interleavings of n threads |
| `MTQueue`, `CircularQueue` | the waiting queue, all interleavings, and the ring under it |
| `PeriodicInstructions` | the instruction counter shared by all cores, all interleavings |
| `FSBAllocator` | the fixed-size-block allocator, words and pointers |
| `SiftFormat`, `SiftTrace`, `SiftLength`, `SiftWriter`, `SiftReader`, `SiftRoundTrip` | the instruction trace format, its writer and its reader |
| `SiftProtocol` | the requests and memory accesses between trace writer and trace reader |
| `LocalJson`, `LocalJsonText`, `LocalJsonReading`, `LocalJsonIO` | the JSON writer and reader |
| `SchedulerLocality`, `SchedulerFairness` | the locality-aware scheduler |
| `BitVector`, `TopologyInfo` | the searchable bit vector; APIC ids |

Code that changes things step by step is modelled by classes and loops, each method being tied by its contract to a
function or relation on values; the theorems are about those and hold for every input, every run or every reachable
state. Code that runs concurrently is modelled as a transition system with one program counter per thread, and its
theorems hold for every interleaving.

## Model

| member | source | states |
|---|---|---|
| Gprof2dot.Profile.FindCycles | sniper/tools/gprof2dot.py:312-329 | Two different functions share a cycle object exactly when each reaches the other through calls; a cycle object holds exactly the functions of one strongly connected component; a function alone in its component has no cycle; the profile lists exactly the cycles in use. For every call graph, self-calls included. |
| Gprof2dot.Profile.Visit | sniper/tools/gprof2dot.py:378-407 | One recursive search keeps the stack and lowlink invariant, although an earlier search may have visited functions under other numbers, and either pops its start with its whole component, tagging that component once, or leaves it on the stack with a way further down. |
| TimePropagation.SelfTimeIsUncharged | sniper/tools/gprof2dot.py:450-501 | For every solution of the time equations and any ratios at all, the self times add up to the time that is not charged to any caller. |
| TimePropagation.PropagationUnique | sniper/tools/gprof2dot.py:483-501 | On a call graph without cycles the time equations have only one solution, so what `integrate` stores does not depend on the order of visits. |
| TimePropagation.RootTime | sniper/tools/gprof2dot.py:450-501 | The general equation, for any ratios: the functions nobody else calls carry all self time plus, for every called function, its time once for each time it is charged beyond the first, and less its time if it is not charged. |
| TimePropagation.ConservedIffChargedOnce | sniper/tools/gprof2dot.py:409-501 | The roots carry exactly the self time for all self times if and only if every called function has a positive count on some call, or a count on exactly one call. The condition is on the call graph and the counts alone; calls without a count are allowed, as in the source. |
| TimePropagation.RootTimeExact | sniper/tools/gprof2dot.py:409-501 | For given self times: the roots carry exactly the self time when all functions that are charged repeatedly or never are idle, that is, neither they nor anything their time comes from has self time; they carry more when only some charged repeatedly are not idle, and less when only some never charged are not. |
| TimePropagation.NoTimeIffIdle | sniper/tools/gprof2dot.py:409-501 | A function ends up with no time exactly when it is idle in that sense, whatever calls carry counts. |
| TimePropagation.PositiveCountsChargeOnce | sniper/tools/gprof2dot.py:409-448 | With a positive count on every call both conditions hold, for all self times. |
| TimePropagation.ChargedTwice | sniper/tools/gprof2dot.py:82-96 | A profile on which time is charged twice: two callers, both with a count of zero, and a callee with time; the roots carry twice the self time. |
| TimePropagation.LostTime | sniper/tools/gprof2dot.py:446-448 | A profile on which time is lost: a call without a count, to a function with time; the root carries nothing. |
| Gprof2dotTimes.CallRatios | sniper/tools/gprof2dot.py:409-448 | On a profile without tagged cycles, each call of another function gets the clamped ratio of its count to the counts of all calls into its callee, and zero if it carries no count; self-calls and all counts are left alone. |
| Gprof2dotIntegrate.Integrate | sniper/tools/gprof2dot.py:450-501 | Terminates, and afterwards the times on functions and calls solve the time equations and the profile holds the sum of all self times; the input event, the ratios and all other profile events are unchanged. |
| Gprof2dotIntegrate.PropagateTimes | sniper/tools/gprof2dot.py:409-501 | `call_ratios` and then `integrate`, joined: whether the root functions carry the profile's total, more or less, is told from the input as in `RootTimeExact`. |
| Gprof2dotIntegrate.Analyze | sniper/tools/gprof2dot.py:312-329 | The same from an untagged profile, starting with `find_cycles`, which tags nothing on a call graph without cycles. |
| Gprof2dotIntegrate.IntegratedRoots | sniper/tools/gprof2dot.py:450-481 | What `PropagateTimes` promises, as a statement about any integrated profile. |
| GenProfile.Profile.OrderCalls | sniper/tools/gen_profile.py:153-164 | The loop over the two deques terminates and lists every call exactly once, each after all its callees. |
| GenProfile.Profile.BuildTotal | sniper/tools/gen_profile.py:35-55 | Once all callees are built, a call gets the totals of its subtree, its own values with those of folded callees, and the callees that remain visible. |
| GenProfile.Profile.BuildAll | sniper/tools/gen_profile.py:153-169 | Every call is built so, whatever the order of roots and callees, and the global totals are the sums over all calls. |
| GenProfile.FoldingKeepsTotals | sniper/tools/gen_profile.py:46-53 | Whatever is folded, the own values visible below a call add up to what its whole original subtree had. |
| GenProfile.Profile.ShownValuesAddUp | sniper/tools/gen_profile.py:35-55 | On a built profile: the total of a call is the sum of the original data over its original subtree for every key; for every key but the number of calls it is the call's own value plus the totals of the callees it shows, and of the calls each call keeps its own number. |
| BuildStack.Stack.GetItems | sniper/tools/buildstack.py:8-42 | For every nesting, repeated and unknown keys, thresholds and either collapse flag: the list is the one that `LargeIsListed`, `ListedIsLarge` and `EveryComponentListed` speak of, listed values and `other` add up to the total, and the total is what was taken out of the values. |
| BuildStack.LargeIsListed | sniper/tools/buildstack.py:8-42 | A component, or a sub-stack none of whose items is above its threshold, is listed under its full name with the sum of its keys not taken before, if its share and those of all stacks around it are above their thresholds. |
| BuildStack.ListedIsLarge | sniper/tools/buildstack.py:8-42 | And nothing else is listed: every entry comes from such a component or sub-stack. |
| BuildStack.EveryComponentListed | sniper/tools/buildstack.py:35-40 | Without collapsing every component has its own entry, in order, with its full name and the sum of its keys not taken before, whatever the thresholds. |
| BuildStack.MergeItems | sniper/tools/buildstack.py:44-55 | For every core the list is that one, with `other` at its end exactly when it is not zero; `other` is what was measured less what is listed before it, and everything listed adds up to what was measured. |
| Barrier.NoneReturnsBeforeAllArrive | sniper/common/misc/barrier.cc:17-38 | In every interleaving no thread has returned from its k-th wait before every thread has arrived for the k-th time, and no thread is ever more than one call ahead of its returns. |
| Barrier.ClearMeetsNoEarlierWaiter | sniper/common/misc/cond.cc:25-50 | Whoever resets the futex word is in the same round as every thread that waits, and no released thread is still on its way out: an arrival of the next round cannot swallow a wake-up. |
| Barrier.NoDeadlock | sniper/common/misc/barrier.cc:17-38 | In every reachable state some thread can take a step that is not a spin. |
| Barrier.EveryThreadReturns | sniper/common/misc/barrier.cc:17-38 | Every run with 12 n (k + 1) steps that are not spins has completed k rounds for every thread. |
| MTQueue.PoppedIsPrefixOfPushed | sniper/common/misc/mt_circular_queue.h:41-127 | With any number of producers and consumers the values popped are a prefix of the values pushed, the difference is what is queued and never exceeds the capacity, and no thread pushes into a full or pops from an empty queue. |
| MTQueue.SleeperIsServed | sniper/common/misc/mt_circular_queue.h:67-110 | One producer and one consumer: whoever sleeps either still has to wait or is about to be woken, and the two never sleep at once. |
| MTQueue.SomebodyIsAwake | sniper/common/misc/mt_circular_queue.h:67-110 | With any number of producers and consumers, at least one of each, they never all sleep. |
| MTQueue.TeamNeverStuck | sniper/common/misc/cond.cc:25-61 | With any number of producers and consumers, at least one of each, some thread can step in every reachable state. |
| MTQueue.SleeperIsForgotten | sniper/common/misc/mt_circular_queue.h:67-77 | A run of one producer and two consumers after which a consumer sleeps although there is a value for it, and nobody is inside a call. |
| MTQueue.ValuesGetThrough | sniper/common/misc/mt_circular_queue.h:87-127 | One producer and one consumer: a run of 16 (2 k + capacity + 1) steps has moved k values. |
| CircularQueue.CircularQueue.Push | sniper/common/misc/circular_queue.h:80-87 | Appends to the contents of a queue that is not full. |
| CircularQueue.CircularQueue.Pop | sniper/common/misc/circular_queue.h:108-116 | Removes and returns the oldest element. |
| CircularQueue.CircularQueue.PushCircular | sniper/common/misc/circular_queue.h:89-96 | Appends to any queue, dropping the oldest element if it was full. |
| PeriodicInstructions.CounterLagsBoundedly | sniper/common/core/core.cc:163-176 | In every interleaving, whenever no core is counting, the shared counter is the sum of what the cores last reported, and each core has executed less than one interval more than that. |
| PeriodicInstructions.HookFollowsCounter | sniper/common/core/core.cc:172-191 | The k-th hook call comes only when the counter is past k - 1 global intervals, the counts it is given never fall, and no two cores are under the lock at once, although the count that is compared and the one handed to the hook are read apart. |
| PeriodicInstructions.NoHookMissed | sniper/common/core/core.cc:163-191 | In every interleaving, once a core that brought the counter up is back at rest, the hook has been called in the meantime with that count or a later one, or the mark is not behind that count. |
| FSBAllocator.Allocator.Allocate | sniper/common/misc/FSBAllocator.hh:124-147 | Returns memory nobody holds, writes into no live unit, makes a block only when every block is full, lists every block with room once and no full block, and fails exactly when the limit on blocks is passed. |
| FSBAllocator.Allocator.Deallocate | sniper/common/misc/FSBAllocator.hh:149-160 | Returns a live unit to the block it came from, found through its tag word; null is ignored; all other units keep their contents. |
| FSBAllocator.Allocator.Store | sniper/common/misc/FSBAllocator.hh:46-49 | A user that stays inside the words of its unit breaks no free list, no tag word and no other unit. |
| FSBAllocator.LiveUnitsDoNotOverlap | sniper/common/misc/FSBAllocator.hh:40-49 | Two live pointers name memory that does not overlap. |
| FSBAllocator.MemBlock.Allocate | sniper/common/misc/FSBAllocator.hh:73-95 | Takes the first unit of the free list or, if that is empty, the next one at the end of the block, and never runs over the end. |
| FSBAllocator.MemBlock.Deallocate | sniper/common/misc/FSBAllocator.hh:97-104 | Puts the unit at the front of the free list, which stays without repetitions, or starts over when the block is empty. |
| FSBAllocator.FreeKeepsOk | sniper/common/misc/FSBAllocator.hh:97-104 | The free list linked through the words of the block, its length, the units in use and the tag words stay in agreement. |
| SiftFormat.DecodeEncode | sniper/sift/sift_format.h:40-82 | Every record is read back field by field from its bytes, whatever bytes follow. |
| SiftFormat.Layout | sniper/sift/sift_format.h:40-82 | Where each field is, bit by bit: size, number of addresses, branch, taken, predicate and executed flags, address, kind and length. |
| SiftFormat.LittleEndian | sniper/sift/sift_format.h:40-82 | Byte k of a number counts for 256 to the power of k. |
| SiftWriter.Writer.Instruction | sniper/sift/sift_writer.cc:152-277 | The bytes appended are those of the code not sent before, of the mappings of pages not sent before, and of the instruction's short or long record; the remembered address, code and mappings are updated accordingly. The trace grows by 14 bytes and the code itself for each piece of code that is new, 22 for each mapping that is new, one byte for an instruction that is not predicated and starts where the one before it ended and ten for any other, and eight for each data address. |
| SiftWriter.Writer.SendVa2pa | sniper/sift/sift_writer.cc:835-860 | A page mapping is sent in physical-address traces only, once for each page, and only when the page is mapped. |
| SiftWriter.Writer.Report | sniper/sift/sift_writer.cc:311-361 | The bytes appended are those of the new mappings of the addresses the record mentions, and of the record: 22 for each new mapping, six, and the payload. |
| SiftLength.CallLength | sniper/sift/sift_writer.cc:152-277 | How many bytes a call costs, for every state of the writer: code and mappings are paid for once, and only straight-line instructions are short. |
| SiftReader.Reader.GetStaticInstruction | sniper/sift/sift_reader.cc:618-654 | With or without the probable-next link, the result is the object the cache holds under the address, or a new one made from the code pages; every link and the last instruction stay inside the cache under their own address. |
| SiftReader.Reader.DecodeInstruction | sniper/sift/sift_reader.cc:598-616 | Gathers exactly the bytes of the code pages at the address, across page ends, and fails exactly when a page is missing. |
| SiftReader.Reader.Read | sniper/sift/sift_reader.cc:161-513 | One call does what the format says up to the next instruction or the end of the trace: what it returns, what it hands to handlers, its state and the rest of its input. |
| SiftTrace.FetchGivesCode | sniper/sift/sift_reader.cc:598-616 | Where the reader has the code of a range, fetching gives exactly the code memory there, across page ends. |
| SiftTrace.InstructionsRefused | sniper/sift/sift_reader.cc:598-654 | The format refuses an instruction if and only if the cache holds another length for its address or, when the address is new, some page it touches is missing. |
| SiftTrace.RecordsRefused | sniper/sift/sift_reader.cc:161-513 | Which payload lengths the reader insists on, kind number by kind number; which kinds are handed to handlers, which end the trace, and that all others change nothing. |
| SiftTrace.CodeConsumed | sniper/sift/sift_writer.cc:157-207 | In both modes, the code records before an instruction give the reader all of its code, and nothing known is lost. |
| SiftTrace.CallConsumed | sniper/sift/sift_writer.cc:152-277 | After every call the reader has yielded what was written, and both sides agree on the address, the code and the page mappings. |
| SiftTrace.CallComesLast | sniper/sift/sift_writer.cc:152-277 | What a call needs comes before it: when only its own record is left to read, nothing has been yielded, and all its code and mappings are known. |
| SiftTrace.TraceRoundTrip | sniper/sift/sift_reader.cc:161-513 | For every sequence of calls: the trace is read to its end if and only if it has no system call and no output without data, and what is read is exactly what was written if and only if, moreover, no instruction that is neither predicated nor executed stands where the one before it ends. |
| SiftTrace.TraceFrom | sniper/sift/sift_writer.cc:152-277 | From any state in which both sides agree, reading a trace gives the events of its calls, and the sides agree at the end. |
| SiftTrace.AddressesTranslate | sniper/sift/sift_reader.cc:725-745 | After a trace with physical addresses every virtual address translates by the first page table entry the writer found for its page, and to 0 where it found none; otherwise addresses are left alone. |
| SiftTrace.TranslatedPage | sniper/sift/sift_reader.cc:738-739 | A mapped address keeps its place in its page, and its page becomes the one mapped to, cut to the width of the address space. |
| SiftTrace.SkippedComesBackExecuted | sniper/sift/sift_writer.cc:217-268 | A trace of two instructions whose second comes back as executed although it was written as not executed. |
| SiftRoundTrip.WriteThenRead | sniper/sift/sift_reader.cc:161-513 | The writer's and the reader's methods joined: reading succeeds, gives back the calls, and translates addresses, under exactly the conditions of `TraceRoundTrip`. |
| SiftProtocol.EveryRequestAnsweredOnce | sniper/sift/sift_writer.cc:279-691 | In every run with polite moves no assertion of either side fails; every finished request got exactly one answer, of its kind, with the value its handler gave; every read of a handler saw memory as the writes before it left it. |
| SiftProtocol.StuckIffFailed | sniper/sift/sift_reader.cc:521-596 | In every run at all: nothing can happen any more if and only if an assertion has failed; that takes an impolite move, and after one it is all that can happen. |
| SiftProtocol.NeverStuck | sniper/sift/sift_writer.cc:693-803 | As long as moves are polite, while a request is open one of the sides can go on. |
| SiftProtocol.RequestEnds | sniper/sift/sift_reader.cc:656-710 | A request stays open for a bounded number of steps. |
| SiftProtocol.ServedIffPolite | sniper/sift/sift_writer.cc:728-803 | A handler's access is served if and only if it reads or writes something during a system call, a synchronisation, a magic instruction or an emulation. |
| SiftProtocol.AnswersTell | sniper/sift/sift_reader.cc:656-710 | The kind and size of the answer to each request; a writer that waits for anything else fails at it, except that instruction counts and synchronisations are answered alike. |
| SiftProtocol.SizesDecide | sniper/sift/sift_writer.cc:279-691 | Which request sizes the writer sends and which answers it takes, kind by kind. |
| SiftProtocol.TakenIffPolite | sniper/sift/sift_writer.cc:417-461 | The reader takes every request the writer sends except, exactly, a system call without argument bytes. |
| LocalJson.ChainIsEscape | sniper/tools/localjson.py:324-335 | The chain of replacements over the whole string is one escape per character. |
| LocalJsonText.RoundTrip | sniper/tools/localjson.py:92-286 | For every value the writer takes, with floats as exact real numbers: reading its text succeeds if and only if all keys are strings, and gives the value itself if and only if it moreover has no unicode string, no tuple, and no float with more than six digits after the point; otherwise it gives byte strings, lists and rounded floats in their place. |
| LocalJsonReading.ReadWriteRead | sniper/tools/localjson.py:92-286 | Whatever is read from any text at all can be written, and is read again as it was, but for digits that floats lose. |
| LocalJsonReading.RepeatedKeys | sniper/tools/localjson.py:252-274 | A text may repeat keys: each key is read once, with its last value. |
| LocalJsonReading.StringByNumber | sniper/tools/localjson.py:164-204 | Every string may be spelled by the numbers of its characters, in digits of either case; it is read back if and only if it is plain ASCII. |
| LocalJsonReading.EscapeCodes | sniper/tools/localjson.py:324-335 | The character codes behind the escape letters, in writing and in reading. |
| LocalJsonReading.WordsRead | sniper/tools/localjson.py:117-141 | `true`, `false` and `null` are read wherever they stand, and nothing else that begins like them. |
| LocalJsonReading.FractionRead | sniper/tools/localjson.py:143-162 | A number with a point is its whole part plus its fraction, however many digits there are. |
| LocalJsonReading.WrittenIsNearest | sniper/tools/localjson.py:338-339 | A float is written as the nearest number with six digits after the point, the even one of two that are equally near. |
| LocalJsonReading.BlockSkipped | sniper/tools/localjson.py:206-226 | A comment between marks does not matter in front of a value, and one inside which another begins is an error. |
| LocalJsonReading.LineSkipped | sniper/tools/localjson.py:228-234 | A comment up to the end of its line does not matter in front of a value. |
| LocalJsonReading.BlankSkipped | sniper/tools/localjson.py:276-283 | Nor does any of the six blank characters. |
| LocalJsonIO.JsonWriter.Write | sniper/tools/localjson.py:302-348 | Appends the text of the value, and raises an exception exactly when a unicode string is not plain ASCII. |
| LocalJsonIO.JsonReader.Read | sniper/tools/localjson.py:92-286 | On every text, correct or not, returns or raises what the grammar says and stops where it says. |
| LocalJsonIO.WriteThenRead | sniper/tools/localjson.py:350-357 | Writer and reader joined: all of the above for the two classes, with floats as exact real numbers. |
| SchedulerLocality.HookKeepsApart | sniper/scripts/scheduler-locality.py:68-135 | Every hook keeps at most one thread on a core and only runnable threads on cores; a start does so exactly when the core it hands out is not in use. |
| SchedulerLocality.HookKeepsInv | sniper/scripts/scheduler-locality.py:68-135 | The invariant that makes starts safe, that cores in use have been handed out before, is kept by every hook, and by a resume exactly when its core has been handed out before. |
| SchedulerLocality.RunStaysApart | sniper/scripts/scheduler-locality.py:68-135 | Over every run whose resumed threads get such cores, at most one thread is on a core. |
| SchedulerLocality.LowestCoreKeepsInv | sniper/scripts/scheduler-locality.py:103-107 | If a resumed thread took the lowest free core, the core would always be one that was handed out before. |
| SchedulerLocality.StartsDouble | sniper/scripts/scheduler-locality.py:68-76 | Otherwise, with a thread on a core n places ahead, the n-th start from there puts a second thread on it. |
| SchedulerLocality.TwoThreadsOnOneCore | sniper/scripts/scheduler-locality.py:96-107 | A run of four hooks on cores 1 and 8 after which two threads share core 8. |
| SchedulerLocality.IntervalReschedules | sniper/scripts/scheduler-locality.py:109-135 | After an interval the running threads are as many of the runnable threads with the least scores as there are cores, threads that ran and still run keep their core, and nothing but cores has changed. |
| SchedulerFairness.HookScores | sniper/scripts/scheduler-locality.py:23-40 | Whatever a hook does to a thread that it does not start or resume, the score rises by as much as what was last seen of its metric; intervals charge threads on cores, a stall the thread that stops; while metrics do not fall no score does. |
| SchedulerFairness.ScoreIsWork | sniper/scripts/scheduler-locality.py:109-111 | Over every run, from an interval that finds a thread on a core to a later one that does, without a start or resume of it in between, its score rises by exactly what its metric gained. |
| SchedulerFairness.StartScores | sniper/scripts/scheduler-locality.py:68-76 | A new thread can run, on the next core with score 0, or on none with its metric as score. |
| SchedulerFairness.ResumeScores | sniper/scripts/scheduler-locality.py:96-102 | A resumed thread can run and starts over with the least score anyone has. |
| SchedulerFairness.StallHandsOver | sniper/scripts/scheduler-locality.py:81-94 | The thread that stops can no longer run and leaves its core to a thread of the least score among those that could run and were on no core; all others keep what they have. |
| SchedulerFairness.LeastRunNext | sniper/scripts/scheduler-locality.py:109-121 | After an interval all cores are in use or all runnable threads run, and no thread that waits has done less than one that runs. |
| SchedulerFairness.TwoThreadsTakeTurns | sniper/scripts/scheduler-locality.py:109-135 | Two runnable threads and one core: they change places when what the running one has done exceeds the score of the other, and stay when it is less. |
| SchedulerFairness.NobodyStarves | sniper/scripts/scheduler-locality.py:109-135 | While threads on cores do something in every interval, the number of intervals in a row that pass over a thread that could run, times the number of cores, is bounded by how far the runnable threads are behind it. |
| SchedulerLocality.Scheduler.Periodic | sniper/scripts/scheduler-locality.py:109-135 | The interval hook: the step that `IntervalReschedules`, `HookScores` and `LeastRunNext` speak of, whenever no two threads share a core. |
| SchedulerLocality.Scheduler.HookThreadStart | sniper/scripts/scheduler-locality.py:68-76 | The new thread is on the next core that was not handed out, if one is left, and nothing else has changed. |
| SchedulerLocality.Scheduler.HookThreadStall | sniper/scripts/scheduler-locality.py:81-94 | The step that `HookScores` and `StallHandsOver` speak of; a stall that only notes that the thread was unscheduled changes just that note. |
| SchedulerLocality.Scheduler.HookThreadResume | sniper/scripts/scheduler-locality.py:96-107 | The thread becomes runnable with the least score of all, on some free core if there is one. |
| BitVector.BitVector.Find | sniper/common/misc/bit_vector.cc:36-106 | Returns the least bit after the one found last, or -1 if there is none, and remembers the result. |
| BitVector.BitVector.FindTimes | sniper/common/misc/bit_vector.cc:21-106 | Started over and called n times, the search gives call by call the results that `RoundListsBits` describes. |
| BitVector.RoundListsBits | sniper/common/misc/bit_vector.cc:36-106 | In every round of searches each bit comes up once, in increasing order, then -1, and then the next round begins. |
| BitVector.BitVector.Set | sniper/common/misc/bit_vector.cc:133-146 | Adds exactly that bit, and the size stays the number of bits. |
| BitVector.BitVector.Clear | sniper/common/misc/bit_vector.cc:148-161 | Removes exactly that bit, and the size stays the number of bits. |
| TopologyInfo.ApicIdsCollideIff | sniper/common/core/topology_info.cc:11-48 | Of cores set up in order, two get the same APIC id if and only if they fall into the same package and their ids, divided by what each was set up with, leave the same thread and core index. |
| TopologyInfo.ApicIdsDiffer | sniper/common/core/topology_info.cc:11-48 | So cores have different APIC ids when the cores of a package are set up alike, whatever the sizes of the packages. |
| TopologyInfo.ApicIdTakenApart | sniper/common/core/topology_info.h:20-21 | Package, core and thread index can be read back from an APIC id by shifting and masking. |
| TopologyInfo.PackageHolds | sniper/common/core/topology_info.cc:20-44 | The first core of a package decides how many it holds: that core and those right after it, as many as the cores that share its cache have hardware threads, whatever the others are set up with. |
| TopologyInfo.AlikePackages | sniper/common/core/topology_info.cc:20-44 | On a machine of like cores the package is the number of the core divided by the hardware threads of a package. |
| TopologyInfo.NextPlace | sniper/common/core/topology_info.cc:13-30 | Cores are numbered thread by thread through a core and core by core through a package, starting over at its end. |
| TopologyInfo.ExtraCoreCollides | sniper/common/core/memory_subsystem/parametric_dram_directory_msi/memory_manager.cc:141-145 | Three application cores that share a cache by two, and a core beyond them, which shares with nobody: the last two get the same APIC id. |
| TopologyInfo.Topology.Setup | sniper/common/core/topology_info.cc:11-48 | For all arguments: divides by zero exactly when a core has no threads or fewer share the cache than a core has threads; otherwise fails an assertion exactly when cores come out of order or the counts do not fit into their bits; otherwise stores the place and the APIC id that `PackageHolds`, `NextPlace` and the others speak of. |

## Findings

The code does not always do what its documentation or its callers expect. Each case has a concrete input, and each but
the waiting queue an exact condition.

- Scheduler, shared core: a resumed thread takes the first element of a set of free cores, which may be any of them.
  If it takes a core that starting threads have not reached yet, a later start puts a second thread on that core.
  `TwoThreadsOnOneCore` is such a run on cores 1 and 8, where a hash set of small integers yields 8 first;
  `HookKeepsInv` and `HookKeepsApart` say exactly which hooks are safe, `StartsDouble` what the next starts do, and
  `LowestCoreKeepsInv` that taking the lowest free core would cure it.
- Call ratios, time charged repeatedly or never: the ratio of 0 to 0 is 1, so a function called by several others with
  only zero counts is charged in full to each; and a call without a count gets the ratio 0, so a function with no other
  calls is charged to nobody. `ChargedTwice` has roots with twice the self time, `LostTime` a root with nothing;
  `ConservedIffChargedOnce` is the exact condition on call graph and counts, `RootTimeExact` what follows for given
  self times, and `RootTime` the exact difference.
- Waiting queue, forgotten sleeper: a push signals only when the queue was empty, and a signal wakes one thread, so with
  two consumers one can sleep on next to a value: `SleeperIsForgotten`. The threads never all sleep, though:
  `SomebodyIsAwake`.
- Trace, skipped instruction: the short record has no executed flag, and the writer uses it for every instruction that
  follows the one before it and is not predicated. An instruction that was not executed then comes back as executed:
  `SkippedComesBackExecuted`, with the exact condition in `TraceRoundTrip`.
- Trace, empty data: the writer sends a system call or an output without data bytes like any other; the reader asserts
  that there are some. `TakenIffPolite`, `StuckIffFailed` and `TraceRoundTrip` state failure exactly there.
- JSON, values that change: the writer accepts unicode strings, tuples, floats and keys that are not strings. The first
  three come back as byte strings, lists and rounded floats, and the last makes the reader fail:
  `LocalJsonText.RoundTrip`.
- APIC ids: cores beyond the application cores are set up with one sharer. When the last application core has opened a
  package that it does not fill, such a core takes a place in it and can get an id that is taken: `ExtraCoreCollides`,
  with the exact condition in `ApicIdsCollideIff`. With two or more threads per core, setting up such a core divides by
  zero: `Topology.Setup`.
- `Cycle.add_function` has a loop over a function's old cycle that never does anything, because the function was added
  to the new cycle just before. The model leaves the loop out.

## Assumptions

- Concurrency: steps are sequentially consistent; the futex is ideal, with no spurious or failing returns and no
  timeouts.
- Time propagation: no two functions call each other; counts and self times are not negative. Arithmetic is over the
  reals.
- Call-stack profile: what is measured are whole numbers in the source and real numbers here; every call carries a
  value for every key, and a call's stack extends its caller's.
- Trace: code memory does not change and an address always has an instruction of the same length (1 to 15 bytes), whose
  code does not reach into the last page of the address space; an instruction has at most two data addresses. What the
  page table says when the writer looks at it is an input.
- Protocol: handlers and the traced program are arbitrary; a bound on the accesses of each handler, which may be any
  number, is an input. The traced program stores only while no request is open: other threads of it that would store
  while one waits are not modelled.
- Allocator: users write only into the words of live units, and free only live pointers or null.
- Scheduler: the metric is constant during one hook; hooks other than a start name threads that have started.
- Bit vector: fewer than 2^31 bits, as positions are signed 32-bit numbers.
- APIC ids: package numbers fit into their bits.

## Left out

- LocalJsonText.RoundTrip: floats are real numbers, so infinities, not-a-number, negative zero and the rounding of the
  machine's own reading and printing are not modelled; numbers with an exponent, which the writer never writes, are
  recognised but not evaluated.
- LocalJsonIO.JsonReader.Read: the reader of a stream, which peeks into a file instead of a string, is not modelled.
- SiftTrace.TraceRoundTrip: the header, compression, the fields inside the payload of a report, and the variable-length
  layout of routine announcements are not modelled; neither is decoding an instruction's bytes into an operation.
- SiftReader.Reader.Read: where the format refuses an instruction because the cache holds another size for its address,
  the link to the probable next instruction may skip that check, and the contract allows either outcome; in a trace of
  the writer this does not occur.
- SiftProtocol.EveryRequestAnsweredOnce: no other thread stores while a request is open; records are messages with a
  kind and a size, not bytes, and the first opening of the response channel is not modelled.
- CircularQueue.CircularQueue.Push: 32-bit wrap-around of the indices is not modelled; it would take a queue of 2^31
  slots.
- PeriodicInstructions.CounterLagsBoundedly: 64-bit wrap-around of the counts is not modelled, nor what the performance
  model and the other hooks do in between.
- MTQueue.SleeperIsServed: holds for one producer and one consumer only; `SleeperIsForgotten` shows that it fails for
  more.
- FSBAllocator.Allocator.Allocate: the limit on the number of blocks is modelled, its error message is not; nor is the
  returning of blocks when the allocator is destroyed.
- Gprof2dotTimes.CallRatios: the totals of tagged cycles, which serve only the propagation through them, are not
  modelled.
- Gprof2dotIntegrate.Analyze: call graphs in which functions call each other are found by `FindCycles`, but not
  propagated through.
- Gprof2dotIntegrate.Integrate: functions that call each other are not modelled, because their times come from a
  heuristic over floating-point numbers.
- TimePropagation.RootTimeExact: the check that a result is close to the expected one within a floating-point
  tolerance is not modelled.
- SchedulerFairness.NobodyStarves: speaks of runs of intervals; what other hooks in between do to the bound is not
  stated, above all a resume, which gives a thread the least score again.
- BitVector.BitVector.Find: words are natural numbers below 2^64, with masking and shifting written as arithmetic.
- TopologyInfo.Topology.Setup: the choice between mesh and other networks is an input; overflow of the package number is
  not modelled.
- Parsing of profiles, configuration, statistics and command lines, and the drawing of graphs and stacks: text in and
  out.
