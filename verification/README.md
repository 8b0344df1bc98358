# OS/161 kernel and library proofs

A Dafny model of parts of OS/161 2.0.3 with its shell extensions, with proofs of what
those parts promise. `dafny verify dfyconfig.toml` checks all of it.

- **64-bit arithmetic on 32-bit words** (`Words`, `QEstimate`, `QColumns`, `QLongDivide`,
  `QShift`, `QDivRem`, `MulDi`, `DivDi`): Knuth's Algorithm D in base 2^16 on digit arrays
  changed in place, the split multiplication with hand-tracked carries, and the signed
  wrappers.
- **Threads** (`ThreadList`, `Threads`, `Scheduling`, `Migration`, `Spl`, `SplLevels`): the doubly
  linked thread list, the scheduler as a machine over any number of CPUs and who runs when,
  migration with other CPUs acting in between, and the counting of interrupt-level raises
  and the level of a thread across context switches. In the machines each region that runs
  under a spinlock is one step. The window in which an idle CPU's run queue is unlocked while
  its last thread is still current is a phase of its own.
- **Synchronisation** (`Semaphores`, `LockCv`, `CvCalls`, `Hangman`): P and V, locks built on a
  semaphore, condition variables, and the deadlock detector. Runs are arbitrary
  interleavings of arbitrarily many threads. `LockCv` models the build in which locks use
  a semaphore, and keeps the lock's and the condition variables' spinlocks explicit
  because threads take steps while holding them.
- **Kernel heap** (`PageRefs`, `RefLists`, `HeapPage`, `Kmalloc`): the subpage allocator with
  free blocks chained through their own memory, pages on two lists, and the pageref bitmap.
- **Process table** (`ChildLists`, `ProcTable`, `Families`): the linked list of children, pid
  allocation, the parent and child links, each system call being one step, and the family
  over whole runs.
- **Data movement and text** (`UserMem`, `ExecArgs`, `Uio`, `Numerals`, `Printf`, `Conversions`,
  `Atoi`): the copy functions, execv's argument buffer, scatter/gather transfers, and formatted
  output, what each conversion prints, and how `atoi` reads it.

Six promises turn out to hold only under a condition, which is proved to be exact:
`PageRefs.Table.Free` (an assertion in `freepageref` fails once a whole root of pagerefs has
been used up by refused pages; `PageRefs.FreeCanFail` is such a run),
`Kmalloc.LargeEnoughIff` (a request above 0xfffff000 bytes wraps when rounded up to pages;
`Kmalloc.RoundingWraps`), `Atoi.AtoiOfDecimal` (zero fill combined with left alignment puts
zeros behind the number; `Atoi.PaddedOneIsTenThousand`), `DivDi.QuotientExactIff` (the one
overflowing quotient), `ExecArgs.FromUser` (`argbuf_fromuser` refuses a list below ARG_MAX whose
first arguments fill its first page exactly, because `copyinstr` then reports a fault;
`ExecArgs.FullPageRefused`) and `Spl.SwitchMaskedIff`. The last is about interrupts being off on a
CPU that holds a spinlock, which rests on threads not yielding or exiting with one;
`thread_switch` does not check this. `Spl.CarefulRunSafe` proves it of all runs that keep to
this, `Spl.LockLeftBehind` is one that does not, `Spl.SwitchMaskedIff` shows that a switch with a
spinlock held always opens the way to such a state, and `Spl.RunSafe` says what holds in either
case.

The comment on `copycheck` speaks only of regions outside user space; `UserMem.CopyCheckIs`
shows what the code does with an empty region, which it refuses except at address zero.

What lies outside is a parameter: what `alloc_kpages` returns, which user addresses can be
accessed, which allocations inside `sys_fork` succeed, what other threads and CPUs do in
between. `Arith`, `Numerals` and `Basics` hold what several modules share.

## Model

| member | source | states |
|---|---|---|
| `QEstimate.FailingCandidateTooBig` | os161-base-2.0.3/common/gcc-millicode/qdivrem.c:205-210 | a candidate that fails the test of step D3 exceeds the true quotient digit, in any base |
| `QEstimate.PassingCandidateWithinOne` | os161-base-2.0.3/common/gcc-millicode/qdivrem.c:205-210 | a candidate that passes the test of step D3 is at most one above the true digit, in any base |
| `QEstimate.FirstGuessWithinTwo` | os161-base-2.0.3/common/gcc-millicode/qdivrem.c:196-204 | Knuth's Theorem B: with a normalised divisor the first guess is at most two too large, in any base |
| `QEstimate.GuessNotTooSmall` | os161-base-2.0.3/common/gcc-millicode/qdivrem.c:196-204 | no digit guess falls below the true digit |
| `QEstimate.ProductFits` | os161-base-2.0.3/common/gcc-millicode/qdivrem.c:205-218 | the product of two digits fits a 32-bit word, so the 32-bit products of D3 and D4 are exact |
| `QEstimate.EstimateDigit` | os161-base-2.0.3/common/gcc-millicode/qdivrem.c:193-210 | D3 ends with the true quotient digit or one more, below the base, after at most two corrections |
| `QColumns.BorrowStep` | os161-base-2.0.3/common/gcc-millicode/qdivrem.c:218-220 | one wrapped 32-bit subtraction of D4 leaves a digit and a borrow that satisfy the exact column equation |
| `QColumns.MulSub` | os161-base-2.0.3/common/gcc-millicode/qdivrem.c:217-223 | D4 replaces the window, in place and nothing else, by window minus qhat times divisor, owing the returned borrow |
| `QColumns.AddBack` | os161-base-2.0.3/common/gcc-millicode/qdivrem.c:232-237 | D6 replaces the window, in place and nothing else, by window plus divisor with the returned carry dropped |
| `QLongDivide.BorrowIffTooLarge` | os161-base-2.0.3/common/gcc-millicode/qdivrem.c:224-231 | D5: the subtraction borrows if and only if the estimate was one too large, and otherwise leaves the remainder |
| `QLongDivide.AddBackRestores` | os161-base-2.0.3/common/gcc-millicode/qdivrem.c:230-238 | one add-back after a borrow leaves exactly the remainder |
| `QLongDivide.TopDigitZero` | os161-base-2.0.3/common/gcc-millicode/qdivrem.c:222-237 | the top digit of the window ends as zero |
| `QLongDivide.DivideDigit` | os161-base-2.0.3/common/gcc-millicode/qdivrem.c:182-239 | steps D3 to D6 yield the true digit and turn the window into a zero digit followed by the remainder |
| `QLongDivide.ExtendQuotient` | os161-base-2.0.3/common/gcc-millicode/qdivrem.c:182-240 | quotient and remainder of a prefix, extended by one digit, are those of the longer prefix |
| `QLongDivide.LongDivide` | os161-base-2.0.3/common/gcc-millicode/qdivrem.c:177-240 | the digit loop leaves the quotient digits in q and the remainder in the low digits of u |
| `QLongDivide.LoopStep` | os161-base-2.0.3/common/gcc-millicode/qdivrem.c:182-240 | one digit step carries the loop's quotient-and-remainder state from j to j + 1 |
| `QShift.Shl` | os161-base-2.0.3/common/gcc-millicode/qdivrem.c:265-279 | shl multiplies the digit string by 2^sh in place, up to the bits that fall out at the left |
| `QShift.ShiftCount` | os161-base-2.0.3/common/gcc-millicode/qdivrem.c:169-171 | the shift count is the least that sets the top bit of the leading divisor digit |
| `QShift.Normalise` | os161-base-2.0.3/common/gcc-millicode/qdivrem.c:163-175 | D1 scales dividend and divisor by the same power of two without loss and sets the divisor's top bit |
| `QShift.Unshift` | os161-base-2.0.3/common/gcc-millicode/qdivrem.c:247-254 | the remainder's shift right divides it by 2^d in place |
| `QDivRem.DivideByDigit` | os161-base-2.0.3/common/gcc-millicode/qdivrem.c:136-148 | the unrolled one-digit division gives quotient and remainder |
| `QDivRem.SkipDivisorZeros` | os161-base-2.0.3/common/gcc-millicode/qdivrem.c:123-150 | leading zero digits of the divisor are skipped without changing its value |
| `QDivRem.SkipDividendZeros` | os161-base-2.0.3/common/gcc-millicode/qdivrem.c:157-158 | leading zero digits of the dividend are skipped without changing its value |
| `QDivRem.ProgramD` | os161-base-2.0.3/common/gcc-millicode/qdivrem.c:157-240 | on prepared digits the quotient buffer ends with x / y, and the low digits of u shifted back by d with x % y, all other digits being zero |
| `QDivRem.ReadRemainder` | os161-base-2.0.3/common/gcc-millicode/qdivrem.c:247-257 | the remainder read back is the low digits of u divided by 2^d |
| `QDivRem.QDivRem` | os161-base-2.0.3/common/gcc-millicode/qdivrem.c:67-263 | for all 64-bit operands: traps exactly on a zero divisor, otherwise returns ull / vll and, if asked, ull % vll |
| `QDivRem.LoadDigits` | os161-base-2.0.3/common/gcc-millicode/qdivrem.c:112-122 | the four digits make up the value |
| `QDivRem.FromDigits` | os161-base-2.0.3/common/gcc-millicode/qdivrem.c:255-262 | two COMBINEd words of the digits are their value, below 2^64 |
| `Words.OrDisjoint` | os161-base-2.0.3/common/gcc-millicode/qdivrem.c:276-277 | or-ing a number into zero low bits adds it |
| `Words.CombineIsPair` | os161-base-2.0.3/common/gcc-millicode/qdivrem.c:48 | COMBINE of two digits is the first times 2^16 plus the second |
| `Words.SplitJoin` | os161-base-2.0.3/common/gcc-millicode/longlong.h:96-112 | HHALF, LHALF and the word union split a 64-bit value into four digits that make it up |
| `MulDi.Splitting` | os161-base-2.0.3/common/gcc-millicode/muldi3.c:60-96 | the splitting identity with its signed middle product |
| `MulDi.Lmulq` | os161-base-2.0.3/common/gcc-millicode/muldi3.c:183-241 | the 64-bit product of two 32-bit words is exact |
| `MulDi.Assemble` | os161-base-2.0.3/common/gcc-millicode/muldi3.c:214-240 | the carry-tracking tail assembles the three half products modulo 2^64 |
| `MulDi.AddShifted` | os161-base-2.0.3/common/gcc-millicode/muldi3.c:223-232 | adding x << 16 with the wrapped-low-half test as carry is exact modulo 2^64 |
| `MulDi.SubShifted` | os161-base-2.0.3/common/gcc-millicode/muldi3.c:219-222 | subtracting x << 16 with the wrapped-low-half test as borrow is exact modulo 2^64 |
| `MulDi.MulWords` | os161-base-2.0.3/common/gcc-millicode/muldi3.c:124-158 | the unsigned body is multiplication modulo 2^64, on the shortcut and on the general path |
| `MulDi.Muldi3` | os161-base-2.0.3/common/gcc-millicode/muldi3.c:99-164 | for every sign combination the result is the product modulo 2^64 |
| `MulDi.ProductFromParts` | os161-base-2.0.3/common/gcc-millicode/muldi3.c:191-212 | the three half-word products determine the full product |
| `MulDi.Differences` | os161-base-2.0.3/common/gcc-millicode/muldi3.c:202-210 | magnitudes and sign make up the signed product of the differences |
| `MulDi.HighSum` | os161-base-2.0.3/common/gcc-millicode/muldi3.c:152-157 | wrapping each term of the high word on its own loses nothing modulo 2^64 |
| `MulDi.AddLow` | os161-base-2.0.3/common/gcc-millicode/muldi3.c:233-235 | adding a word with the wrapped test as carry is exact modulo 2^64 |
| `MulDi.PlusShifted` | os161-base-2.0.3/common/gcc-millicode/muldi3.c:223-232 | the double-word sum with x << 16, modulo 2^64 |
| `MulDi.MinusShifted` | os161-base-2.0.3/common/gcc-millicode/muldi3.c:219-222 | the double-word difference with x << 16, modulo 2^64 |
| `DivDi.TruncEquation` | os161-base-2.0.3/common/gcc-millicode/divdi3.c:44-62 | the truncating quotient and remainder satisfy the division equation, size and sign conditions of C |
| `DivDi.TruncUnique` | os161-base-2.0.3/common/gcc-millicode/divdi3.c:44-62 | those conditions determine quotient and remainder |
| `DivDi.Divdi3` | os161-base-2.0.3/common/gcc-millicode/divdi3.c:44-62 | traps exactly on zero; otherwise the truncating quotient, wrapped to 64 bits |
| `DivDi.Moddi3` | os161-base-2.0.3/common/gcc-millicode/moddi3.c:45-62 | traps exactly on zero; otherwise the truncating remainder |
| `DivDi.QuotientExactIff` | os161-base-2.0.3/common/gcc-millicode/divdi3.c:44-62 | the quotient is exact for every pair of operands except the least value by -1 |
| `DivDi.DivModIdentity` | os161-base-2.0.3/common/gcc-millicode/moddi3.c:45-62 | a = (a / b) * b + a % b modulo 2^64 in every case, the overflowing one included |
| `WaitsFor.WaitClosesCycleIff` | os161-base-2.0.3/kern/thread/hangman.c:50-129 | on an acyclic waits-for graph a new wait closes a cycle if and only if the lockable already leads to the actor |
| `WaitsFor.GrantKeepsAcyclic` | os161-base-2.0.3/kern/thread/hangman.c:132-157 | granting a lockable records the holder and keeps the graph acyclic |
| `WaitsFor.DropKeepsAcyclic` | os161-base-2.0.3/kern/thread/hangman.c:160-182 | releasing a lockable keeps the graph acyclic |
| `WaitsFor.StepKeepsAcyclic` | os161-base-2.0.3/kern/thread/hangman.c:110-182 | every hangman step keeps the graph acyclic |
| `WaitsFor.RunStaysAcyclic` | os161-base-2.0.3/kern/thread/hangman.c:110-182 | over every sequence of steps from an acyclic graph the graph stays acyclic |
| `WaitsFor.GraphIsHistory` | os161-base-2.0.3/kern/thread/hangman.c:110-182 | over every run of calls: an actor holds a lockable if and only if its acquiring it was the last that happened to the lockable, and waits for one if and only if that wait was its last call |
| `WaitsFor.CallOutcome` | os161-base-2.0.3/kern/thread/hangman.c:110-182 | by the calls before it: a wait is misuse exactly if the actor waits already, an acquire goes through exactly if the actor asked for the lockable and nobody has it, a release exactly if the actor has it and does not wait |
| `WaitsFor.DeadlockIffRing` | os161-base-2.0.3/kern/thread/hangman.c:50-129 | a wait is a deadlock if and only if there is a ring of actors from the holder to the caller, each holding what the one before waits for |
| `WaitsFor.RingDeadlocks` | os161-base-2.0.3/kern/thread/hangman.c:50-129 | the same in terms of the calls alone: after any run, the wait that closes a ring of actors that each acquired a lockable and then asked for the next one's is reported, and no other is |
| `Hangman.Detector.Check` | os161-base-2.0.3/kern/thread/hangman.c:50-94 | the pointer chase terminates and reports exactly whether the lockable leads to the target actor |
| `Hangman.Detector.Wait` | os161-base-2.0.3/kern/thread/hangman.c:110-129 | reports a deadlock exactly when the wait would close a cycle, otherwise records it and joins the calls that the graph is the result of; misuse changes nothing |
| `Hangman.Detector.Acquire` | os161-base-2.0.3/kern/thread/hangman.c:132-157 | turns the wait into a holding as the graph transition says, and joins the calls that the graph is the result of; misuse changes nothing |
| `Hangman.Detector.Release` | os161-base-2.0.3/kern/thread/hangman.c:160-182 | drops the holding as the graph transition says; misuse changes nothing |
| `Hangman.Detector.InitActor` | os161-base-2.0.3/kern/include/hangman.h:59 | a new actor waits for nothing and leaves the graph as it was |
| `Hangman.Detector.InitLockable` | os161-base-2.0.3/kern/include/hangman.h:60 | a new lockable is held by nobody and leaves the graph as it was |
| `Hangman.Detector.constructor` | os161-base-2.0.3/kern/thread/hangman.c:40 | a detector that knows nobody is well formed and acyclic |
| `Hangman.Detector.Give` | os161-base-2.0.3/kern/thread/hangman.c:153-154 | the two assignments of hangman_acquire make the actor the holder and end its wait |
| `ThreadList.Thread.constructor` | os161-base-2.0.3/kern/thread/threadlist.c:39-48 | a new thread's node names it and has both links null |
| `ThreadList.List.constructor` | os161-base-2.0.3/kern/thread/threadlist.c:60-72 | a new list is a well-formed chain with no thread on it |
| `ThreadList.List.InsertAfterNode` | os161-base-2.0.3/kern/thread/threadlist.c:106-120 | the node is spliced in after the given position and the chain stays linked both ways |
| `ThreadList.List.InsertBeforeNode` | os161-base-2.0.3/kern/thread/threadlist.c:126-140 | the node is spliced in before the given position |
| `ThreadList.List.RemoveNode` | os161-base-2.0.3/kern/thread/threadlist.c:146-157 | the node is unspliced and both its links are null |
| `ThreadList.List.IsEmpty` | os161-base-2.0.3/kern/thread/threadlist.c:91-97 | true exactly for the empty sequence |
| `ThreadList.List.AddHead` | os161-base-2.0.3/kern/thread/threadlist.c:162-170 | refines putting the thread in front of the sequence |
| `ThreadList.List.AddTail` | os161-base-2.0.3/kern/thread/threadlist.c:172-180 | refines appending the thread to the sequence |
| `ThreadList.List.RemHead` | os161-base-2.0.3/kern/thread/threadlist.c:182-198 | returns and removes the first thread, its links being null then, or returns null and changes nothing on an empty list |
| `ThreadList.List.RemTail` | os161-base-2.0.3/kern/thread/threadlist.c:200-216 | returns and removes the last thread, its links being null then, or returns null and changes nothing on an empty list |
| `ThreadList.List.InsertAfter` | os161-base-2.0.3/kern/thread/threadlist.c:218-224 | refines insertion after a member of the sequence |
| `ThreadList.List.InsertBefore` | os161-base-2.0.3/kern/thread/threadlist.c:226-232 | refines insertion before a member of the sequence |
| `ThreadList.List.Remove` | os161-base-2.0.3/kern/thread/threadlist.c:234-240 | refines removal of a member of the sequence |
| `ThreadList.List.Unlinked` | os161-base-2.0.3/kern/thread/threadlist.c:106-140 | a node with null links is on no list, so the insertion assertions rule out double insertion |
| `ThreadList.List.Forward` | os161-base-2.0.3/kern/include/threadlist.h:94-97 | the forward iteration visits exactly the sequence, in order |
| `ThreadList.List.Backward` | os161-base-2.0.3/kern/include/threadlist.h:99-102 | the backward iteration visits it in reverse |
| `ThreadList.MoveHead` | os161-base-2.0.3/kern/thread/thread.c:1064-1066 | one turn of the loop moves the head of one list to the tail of another and leaves every other thread of both in place |
| `ThreadList.Untouched` | os161-base-2.0.3/kern/thread/threadlist.c:60-240 | an operation on one list leaves a list with other nodes as it was |
| `ThreadList.List.LinkBetween` | os161-base-2.0.3/kern/thread/threadlist.c:106-140 | relinking the two neighbours leaves a well-formed chain with the node between them |
| `ThreadList.List.LinkAt` | os161-base-2.0.3/kern/thread/threadlist.c:106-140 | the four pointer assignments leave the nodes, with the new one, a chain |
| `ThreadList.List.UnlinkAt` | os161-base-2.0.3/kern/thread/threadlist.c:146-157 | the four pointer assignments leave the other nodes a chain |
| `Semaphores.StepKeepsInv` | os161-base-2.0.3/kern/thread/synch.c:88-135 | every P or V step keeps: while a thread sleeps, woken threads not yet rechecked number at least sem_count |
| `Semaphores.RunInvariant` | os161-base-2.0.3/kern/thread/synch.c:88-135 | over every interleaving: count = initial + completed Vs - completed Ps, and no wakeup is lost |
| `Semaphores.SleepersAreRight` | os161-base-2.0.3/kern/thread/synch.c:88-135 | once all woken threads have rechecked, a sleeper means the count is zero and Ps equal initial plus Vs |
| `Semaphores.WokenThreadsDrain` | os161-base-2.0.3/kern/thread/synch.c:103-119 | whatever order the woken threads recheck in, each takes a unit while there is one, and if a thread was asleep the count ends at zero |
| `Semaphores.Semaphore.Test` | os161-base-2.0.3/kern/thread/synch.c:102-120 | one turn of P's loop takes a unit or sleeps, as a step of the machine |
| `Semaphores.Semaphore.Up` | os161-base-2.0.3/kern/thread/synch.c:123-135 | V counts up and wakes the longest sleeper; it fails exactly when the 32-bit count would wrap |
| `Semaphores.Semaphore.P` | os161-base-2.0.3/kern/thread/synch.c:88-121 | P's retry loop with arbitrary other steps in between: it returns only by a step of its own that takes one unit, and certainly does if the count was positive at the start |
| `Semaphores.TestKeepsInv` | os161-base-2.0.3/kern/thread/synch.c:102-120 | a test of the count, with the sleep that may follow, keeps the no-lost-wakeup invariant |
| `Semaphores.SignalKeepsInv` | os161-base-2.0.3/kern/thread/synch.c:123-135 | counting up and waking one sleeper keeps it |
| `Semaphores.Semaphore.constructor` | os161-base-2.0.3/kern/thread/synch.c:47-74 | a new semaphore has its initial count and an empty history |
| `Semaphores.SleepersAreQueue` | os161-base-2.0.3/kern/thread/synch.c:88-135 | over every run the threads woken, in order, and after them those still asleep are the threads that went to sleep, in order: V wakes the longest sleeper |
| `Semaphores.QueueStep` | os161-base-2.0.3/kern/thread/synch.c:88-135 | one event puts at most its own thread at the end of the channel and wakes at most the head |
| `LockCv.StepSafe` | os161-base-2.0.3/kern/thread/synch.c:225-414 | no step of any thread breaks the owner, sleep or overflow assertions, and every step keeps the invariant |
| `LockCv.RunSafe` | os161-base-2.0.3/kern/thread/synch.c:225-414 | over every interleaving at most one thread is between the P and the V of the lock and no assertion of the code fails |
| `LockCv.GotKeeps` | os161-base-2.0.3/kern/thread/synch.c:246-256 | after its P a thread finds lk_owner NULL and becomes the owner |
| `LockCv.PostKeeps` | os161-base-2.0.3/kern/thread/synch.c:262-281 | the V of lock_release gives back the only unit and cannot overflow |
| `LockCv.WaitSleepKeeps` | os161-base-2.0.3/kern/thread/synch.c:356-379 | going to sleep in cv_wait meets wchan_sleep's assertion that this spinlock and no other is held, and keeps the invariant |
| `LockCv.WaitReturnsHolding` | os161-base-2.0.3/kern/thread/synch.c:356-379 | a thread inside cv_wait stays inside or comes out owning the lock |
| `LockCv.SignalFindsWaiters` | os161-base-2.0.3/kern/thread/synch.c:356-414 | when a signal or broadcast takes effect every other thread in cv_wait is on the channel or already woken; the head, or all, are woken |
| `LockCv.OthersAtMostRouse` | os161-base-2.0.3/kern/thread/synch.c:225-414 | a step of another thread changes a thread's place only by waking it |
| `LockCv.TestKeeps` | os161-base-2.0.3/kern/thread/synch.c:246 | both tests of the lock's semaphore, with the sleep that may follow, meet wchan_sleep's assertion that no other spinlock is held, and keep the invariant |
| `LockCv.StartKeeps` | os161-base-2.0.3/kern/thread/synch.c:225-414 | starting any operation keeps the invariant; where each one then leads is stated by BroadcastWakesAll, SignalWakesHead, WaitSleeps, ReleaseFrees and AcquireTakes of CvCalls |
| `LockCv.RelOwnerKeeps` | os161-base-2.0.3/kern/thread/synch.c:268-269 | taking lk_spinlock and clearing the owner keeps the invariant |
| `LockCv.RelDoneKeeps` | os161-base-2.0.3/kern/thread/synch.c:277 | giving up lk_spinlock keeps the invariant |
| `LockCv.WaitSpinKeeps` | os161-base-2.0.3/kern/thread/synch.c:356-379 | taking the condition variable's spinlock and starting to release the lock keeps the invariant |
| `LockCv.WaitWokenKeeps` | os161-base-2.0.3/kern/thread/synch.c:356-379 | going on to retake the lock after a wakeup keeps the invariant |
| `LockCv.WakingKeeps` | os161-base-2.0.3/kern/thread/synch.c:381-414 | waking one or all waiters keeps the invariant |
| `LockCv.InitInv` | os161-base-2.0.3/kern/thread/synch.c:141-175 | a new lock with new condition variables satisfies the invariant |
| `Threads.InitInv` | os161-base-2.0.3/kern/thread/thread.c:162-250 | the boot state satisfies the invariant |
| `Threads.ForkKeeps` | os161-base-2.0.3/kern/thread/thread.c:491-545 | thread_fork queues a fresh thread on its creator's CPU and keeps the invariant |
| `Threads.SwitchKeeps` | os161-base-2.0.3/kern/thread/thread.c:557-725 | thread_switch to ready, sleep or zombie never fails its assertions and keeps the invariant |
| `Threads.PickKeeps` | os161-base-2.0.3/kern/thread/thread.c:638-661 | choosing the next thread keeps the invariant; which one it is is stated by YieldRunsHead and PollRunsHead of Scheduling |
| `Threads.ZombieNotCurrent` | os161-base-2.0.3/kern/thread/thread.c:293-304 | a thread that exorcise meets is a zombie and current on no CPU |
| `Threads.DestroyKeeps` | os161-base-2.0.3/kern/thread/thread.c:261-304 | exorcise destroys only such threads and keeps the invariant |
| `Threads.WakeKeeps` | os161-base-2.0.3/kern/thread/thread.c:1021-1078 | taking one or all sleepers off a channel keeps the invariant |
| `Threads.QueueKeeps` | os161-base-2.0.3/kern/thread/thread.c:447-479 | thread_make_runnable puts a taken thread on its own CPU's queue, even if that CPU idles on it |
| `Threads.TakeKeeps` | os161-base-2.0.3/kern/thread/thread.c:876-883 | removing the victims never meets an empty run queue, whatever happened since it was measured, and keeps the invariant |
| `Threads.GiveKeeps` | os161-base-2.0.3/kern/thread/thread.c:885-936 | handing a victim to another CPU, or setting the current thread aside, keeps the invariant |
| `Threads.RestoreKeeps` | os161-base-2.0.3/kern/thread/thread.c:938-949 | putting leftovers back keeps the invariant |
| `Threads.StepSafe` | os161-base-2.0.3/kern/thread/thread.c:447-953 | no step breaks the assertions that a thread is in its place (t_cpu, list nodes unlinked, not current and a zombie when destroyed, never removed from an empty list) or touches a destroyed thread; all keep the invariant |
| `Threads.RunInv` | os161-base-2.0.3/kern/thread/thread.c:447-953 | the invariant holds in every reachable state |
| `Threads.RunSafe` | os161-base-2.0.3/kern/thread/thread.c:557-725 | in every reachable state: no thread is current on two CPUs, none is on two lists, the members of a run queue are ready and belong to that CPU, and a live thread is on no list exactly when it is current on a CPU that does not idle |
| `Threads.NextStepSafe` | os161-base-2.0.3/kern/thread/thread.c:293-304 | from any reachable state only exorcise destroys threads, only zombies of that CPU, and never one that is current anywhere |
| `Threads.IdleThreadRequeued` | os161-base-2.0.3/kern/thread/thread.c:893-914 | the window is reachable: an idle CPU's current thread sits on its own run queue |
| `Threads.PutKeeps` | os161-base-2.0.3/kern/thread/thread.c:594-619 | putting the current thread on the list its new state calls for keeps the invariant |
| `Migration.RoomForAll` | os161-base-2.0.3/kern/thread/thread.c:871-876 | when the donor gives away what it has above one share, the other CPUs lack at least that much |
| `Migration.Cpus.Measure` | os161-base-2.0.3/kern/thread/thread.c:859-869 | the donor's own queue is never shorter than its count says, although the queues are read one by one while others act; with no interference the counts are exact |
| `Migration.Cpus.Take` | os161-base-2.0.3/kern/thread/thread.c:876-883 | the victims are the tail of the donor's queue, in order |
| `Migration.Cpus.Fill` | os161-base-2.0.3/kern/thread/thread.c:890-935 | victims go to the tail of the queue up to the share and no further, with t_cpu set to that CPU and no other t_cpu changed; the current thread is never sent; no victim is lost or doubled; if any are still to be sent the queue is full |
| `Migration.Cpus.Spread` | os161-base-2.0.3/kern/thread/thread.c:885-936 | over all receivers the ready threads are conserved, and with no interference and enough room only the current thread is left over |
| `Migration.Cpus.PutBack` | os161-base-2.0.3/kern/thread/thread.c:938-949 | leftovers return to the donor's queue |
| `Migration.Cpus.ConsiderMigration` | os161-base-2.0.3/kern/thread/thread.c:850-953 | under any interference ready threads are conserved and the current thread keeps its t_cpu; without interference the donor keeps the first one_share threads and, behind them, only the current thread if that was a victim, and no receiver is raised above one_share; then also every thread another CPU has gained has that CPU as its t_cpu, and no other t_cpu is changed; under interference a t_cpu that changes becomes another CPU's |
| `Migration.Cpus.Unlock` | os161-base-2.0.3/kern/thread/thread.c:868-935 | other CPUs may change their own queues at will, and add to the tail of the donor's; readiness, corrected for that, is unchanged |
| `Migration.Cpus.FillNext` | os161-base-2.0.3/kern/thread/thread.c:885-936 | one turn of the distribution with its unlock: threads are conserved, the current one stays |
| `Migration.Cpus.Migrate` | os161-base-2.0.3/kern/thread/thread.c:876-949 | from taking victims to putting the last back: threads are conserved, and without interference loads are evened |
| `Migration.RoomBound` | os161-base-2.0.3/kern/thread/thread.c:871-876 | what the queues lack is at least what full shares would add to them |
| `Migration.Cpus.FillOne` | os161-base-2.0.3/kern/thread/thread.c:890-935 | one victim goes to the CPU with t_cpu set, or behind the others if it is the current thread |
| `Migration.Cpus.FillingStep` | os161-base-2.0.3/kern/thread/thread.c:890-935 | each turn keeps: victims in hand and sent make up the first hand, and t_cpu names the CPU for exactly those sent |
| `Migration.Cpus.HomedStep` | os161-base-2.0.3/kern/thread/thread.c:885-936 | after each receiver, every thread a CPU has gained has it as t_cpu, and no other t_cpu has changed |
| `Migration.Cpus.HomedSame` | os161-base-2.0.3/kern/thread/thread.c:876-949 | taking victims and putting leftovers back changes nothing of that |
| `Migration.ShareIsLeast` | os161-base-2.0.3/kern/thread/thread.c:871 | one_share is the least share that would do for all threads |
| `Spl.SetCharges` | os161-base-2.0.3/kern/thread/spl.c:131-160 | splx changes level and count together, keeps the accounting and touches nothing else |
| `Spl.BeginCharges` | os161-base-2.0.3/kern/thread/spinlock.c:75-94 | the start of spinlock_acquire charges one raise to the current thread |
| `Spl.WinKeeps` | os161-base-2.0.3/kern/thread/spinlock.c:96-122 | winning the lock keeps the accounting |
| `Spl.DropCharges` | os161-base-2.0.3/kern/thread/spinlock.c:127-142 | spinlock_release by the thread that took the lock gives one raise back and cannot underflow the count |
| `Spl.StartSwitchKeeps` | os161-base-2.0.3/kern/thread/thread.c:567-585 | thread_switch may be entered with any spinlocks held; it fails exactly if the CPU's own run queue lock is among them, keeps the invariant, and keeps the level of entry for later |
| `Spl.ChooseKeeps` | os161-base-2.0.3/kern/thread/thread.c:640-661 | handing the CPU, and with it the held run queue lock, to another thread keeps the accounting of both |
| `Spl.LeaveKeeps` | os161-base-2.0.3/kern/thread/thread.c:710-725 | the tail of thread_switch, or thread_startup, releases the inherited lock, goes back to the level that was kept, and keeps the invariant |
| `Spl.ForkKeeps` | os161-base-2.0.3/kern/thread/thread.c:491-545 | a new thread, whose count is two and which has taken no spinlock, joins the switched-out threads and keeps the invariant |
| `Spl.StepSafe` | os161-base-2.0.3/kern/thread/spl.c:86-160 | no step breaks an assertion of the code; all keep the invariant |
| `Spl.RunSafe` | os161-base-2.0.3/kern/thread/spl.c:86-160 | over every run: a current thread's count is (1 if its level is high) + the spinlocks it took or waits for, c_spinlocks counts those of the CPU, interrupts are on exactly at count zero and never inside thread_switch, and a switched-out thread has two raises more than spinlocks, so two exactly if it took none along |
| `Spl.NextStepSafe` | os161-base-2.0.3/kern/thread/spl.c:86-160 | interrupts go off only on the first raise and on only at the last lower |
| `Spl.DecideKeeps` | os161-base-2.0.3/kern/thread/thread.c:587-619 | returning early, or letting go of the wait channel's spinlock, keeps the accounting |
| `Spl.UnidleKeeps` | os161-base-2.0.3/kern/thread/thread.c:642-646 | taking the run queue lock again after idling keeps the accounting |
| `Spl.BodyKeeps` | os161-base-2.0.3/kern/thread/spl.c:86-160 | calls of splx and of the spinlock operations in any order keep the invariant |
| `Spl.RunInv` | os161-base-2.0.3/kern/thread/spl.c:86-160 | the invariant holds in every reachable state |
| `Spl.LockPasses` | os161-base-2.0.3/kern/thread/thread.c:657-661 | the run queue lock passes from the thread that leaves to the one that comes, and no other lock does |
| `Spl.TidyStep` | os161-base-2.0.3/kern/thread/thread.c:557-725 | if threads yield and exit only without spinlocks, every lock a CPU holds stays one that its current thread took |
| `Spl.CarefulIsTidy` | os161-base-2.0.3/kern/thread/thread.c:557-725 | so it is in every state such runs reach |
| `Spl.CarefulRunSafe` | os161-base-2.0.3/kern/thread/spl.c:86-160 | over every such run the count is that of the CPU's own spinlocks, interrupts are never on while the CPU holds one, and switched-out threads have count two |
| `Spl.LockLeftBehind` | os161-base-2.0.3/kern/thread/thread.c:557-725 | without that condition it fails: a run after which a CPU holds a spinlock with interrupts on |
| `Spl.SwitchMaskedIff` | os161-base-2.0.3/kern/thread/thread.c:557-725 | in any state reached by threads that keep to the condition, when a thread yields or exits with another ready to run: interrupts stay off whenever the CPU holds a spinlock, in all such continuations, if and only if the CPU holds no spinlock at the call |
| `Spl.NextRunsUnmasked` | os161-base-2.0.3/kern/thread/thread.c:557-725 | after entering thread_switch, a thread without spinlocks can come to run there with interrupts on while the CPU still holds what it held |
| `Spl.OtherComes` | os161-base-2.0.3/kern/thread/thread.c:587-661 | the steps that hand the CPU and the run queue lock to the other thread |
| `Spl.OtherUnmasks` | os161-base-2.0.3/kern/thread/thread.c:710-725 | the steps by which that thread gives the lock up and lowers its level, turning interrupts on |
| `Spl.TidyFrom` | os161-base-2.0.3/kern/thread/thread.c:557-725 | from any such state, runs that keep to the condition keep each lock a CPU holds one that its current thread took |
| `Spl.LevelIsSaved` | os161-base-2.0.3/kern/thread/thread.c:567-568 | raising the level on entry keeps the accounting, and the old level is remembered |
| `PageRefs.FindBit` | os161-base-2.0.3/kern/vm/kmalloc.c:271-295 | the bit scan finds the first clear bit, or none exactly when all are set |
| `PageRefs.Table.Alloc` | os161-base-2.0.3/kern/vm/kmalloc.c:256-298 | allocpageref marks the first unused slot and changes nothing else, or fails unchanged exactly when all 4096 are in use; the slot is handed out if its root has a page or gets one, and otherwise stays marked; numinuse stays the population count |
| `PageRefs.Table.Free` | os161-base-2.0.3/kern/vm/kmalloc.c:303-337 | freepageref clears exactly that bit; its assertion about roots without a page fails if and only if a root before the pageref's own has no page |
| `PageRefs.CountUpdate` | os161-base-2.0.3/kern/vm/kmalloc.c:277-279 | setting or clearing a bit changes the population count by one |
| `PageRefs.CountFull` | os161-base-2.0.3/kern/vm/kmalloc.c:267-269 | numinuse is 256 exactly when every bit is set, so the scan of such a root's bits is skipped rightly and any other finds one |
| `PageRefs.Table.constructor` | os161-base-2.0.3/kern/vm/kmalloc.c:213 | no pageref is in use at first |
| `PageRefs.Table.Mark` | os161-base-2.0.3/kern/vm/kmalloc.c:277-290 | what marking the bit found and getting a page for its root leaves, whether or not there is a page |
| `PageRefs.FreeCanFail` | os161-base-2.0.3/kern/vm/kmalloc.c:303-337 | a run that ends in freepageref's failing assertion: 256 refused pages, one granted, and the pageref that came with it freed |
| `RefLists.PabRoundTrip` | os161-base-2.0.3/kern/vm/kmalloc.c:156-158 | page address and block type come back out of the packed word |
| `RefLists.Unlink` | os161-base-2.0.3/kern/vm/kmalloc.c:830-844 | the pointer walk removes exactly that pageref from the list and touches no other field |
| `RefLists.OfTypeWithout` | os161-base-2.0.3/kern/vm/kmalloc.c:824-845 | removing a page from the list of all pages removes it from the sublist of its size |
| `RefLists.Before` | os161-base-2.0.3/kern/vm/kmalloc.c:830-844 | the walk stops at the pageref's only place in the list |
| `RefLists.OfTypeMembers` | os161-base-2.0.3/kern/vm/kmalloc.c:340-345 | the sublist of a block type has exactly the pages of that type, each once |
| `HeapPage.Carve` | os161-base-2.0.3/kern/vm/kmalloc.c:989-1008 | a fresh page becomes a chain of all its blocks, the last first, and nothing outside the page is written |
| `HeapPage.ChainPop` | os161-base-2.0.3/kern/vm/kmalloc.c:924-942 | taking the head leaves a chain; the first word leads to the next block and is NULL exactly at the end |
| `HeapPage.ChainPut` | os161-base-2.0.3/kern/vm/kmalloc.c:1105-1140 | overwriting a block not on the chain and putting it in front leaves a chain within the page's block count |
| `HeapPage.ChainFits` | os161-base-2.0.3/kern/vm/kmalloc.c:1140-1141 | distinct block offsets are at most PAGE_SIZE/size, with equality exactly when all blocks are there |
| `HeapPage.AllFreeIff` | os161-base-2.0.3/kern/vm/kmalloc.c:1141 | all blocks are on the chain exactly when no client holds one |
| `HeapPage.ChainPush` | os161-base-2.0.3/kern/vm/kmalloc.c:1116-1138 | a block put in front of a chain it was not on leaves a chain |
| `HeapPage.InUse` | os161-base-2.0.3/kern/vm/kmalloc.c:495-568 | blocks in clients' hands number exactly those not on the chain |
| `HeapPage.PageLiveTake` | os161-base-2.0.3/kern/vm/kmalloc.c:924-942 | a block taken off the chain was in nobody's hands and now is |
| `HeapPage.PageLivePut` | os161-base-2.0.3/kern/vm/kmalloc.c:1105-1138 | a block given back was not on the chain and now is |
| `Kmalloc.TypeFor` | os161-base-2.0.3/kern/vm/kmalloc.c:851-867 | blocktype picks the smallest block that fits |
| `Kmalloc.LiveBlocksDisjoint` | os161-base-2.0.3/kern/vm/kmalloc.c:873-1206 | all blocks in clients' hands, small and large, are pairwise disjoint |
| `Kmalloc.FreePlusLive` | os161-base-2.0.3/kern/vm/kmalloc.c:495-568 | on every page free blocks plus blocks in use equal PAGE_SIZE/size |
| `Kmalloc.SizeListsPartition` | os161-base-2.0.3/kern/vm/kmalloc.c:340-345 | the list of each size is the sublist of the all-pages list with that block type; together they hold every page |
| `Kmalloc.FirstIsValid` | os161-base-2.0.3/kern/vm/kmalloc.c:512-515 | freelist_offset is INVALID_OFFSET exactly when nfree is zero |
| `Kmalloc.TakeKeeps` | os161-base-2.0.3/kern/vm/kmalloc.c:920-954 | doalloc hands out a block that no client had and keeps the heap invariant |
| `Kmalloc.PutKeeps` | os161-base-2.0.3/kern/vm/kmalloc.c:1105-1140 | putting a block back keeps the invariant and nfree within the page's block count |
| `Kmalloc.PutEmptiesIff` | os161-base-2.0.3/kern/vm/kmalloc.c:1141 | the page becomes all free exactly when the block was its last in use |
| `Kmalloc.AddKeeps` | os161-base-2.0.3/kern/vm/kmalloc.c:980-1017 | a fresh page goes on both lists and keeps the invariant |
| `Kmalloc.DropKeeps` | os161-base-2.0.3/kern/vm/kmalloc.c:1141-1148 | an empty page leaves both lists and keeps the invariant |
| `Kmalloc.UnlinkBoth` | os161-base-2.0.3/kern/vm/kmalloc.c:822-845 | the two loops of remove_lists take the page off its size list and the list of all pages |
| `Kmalloc.FillDeadbeef` | os161-base-2.0.3/kern/vm/kmalloc.c:44-53 | the block is filled and nothing outside it is written |
| `Kmalloc.Heap.FindPage` | os161-base-2.0.3/kern/vm/kmalloc.c:914-955 | finds a page of the type with a free block, or none exactly when there is none |
| `Kmalloc.Heap.TakeBlock` | os161-base-2.0.3/kern/vm/kmalloc.c:922-942 | the code, following the first word of the block, does what taking the head of the chain means |
| `Kmalloc.Heap.SubpageKmalloc` | os161-base-2.0.3/kern/vm/kmalloc.c:873-1018 | whatever other calls do while the lock is given up around alloc_kpages, it returns a block that was not in use, aligned, large enough, and now in use; it fails only if its search found no free block of the right size and no new page or pageref can be had, and then changes nothing and gives back a page it got |
| `Kmalloc.Heap.FindOwner` | os161-base-2.0.3/kern/vm/kmalloc.c:1072-1090 | finds the page a pointer points into, or none exactly when there is none |
| `Kmalloc.Heap.RemoveLists` | os161-base-2.0.3/kern/vm/kmalloc.c:822-845 | remove_lists on the heap's own fields |
| `Kmalloc.Heap.ReturnBlock` | os161-base-2.0.3/kern/vm/kmalloc.c:1092-1160 | the block goes back; its page is kept exactly while another of its blocks is in use; otherwise it is released, or the assertion in freepageref fails, exactly if a root before the pageref's own has no page |
| `Kmalloc.Heap.SubpageKfree` | os161-base-2.0.3/kern/vm/kmalloc.c:1024-1160 | a whole-page pointer is not ours; a block is freed, and its page kept, released or stuck in freepageref's assertion exactly as ReturnBlock says |
| `Kmalloc.Heap.Kmalloc` | os161-base-2.0.3/kern/vm/kmalloc.c:1169-1206 | below 2048 bytes as SubpageKmalloc; from 2048 on exactly what alloc_kpages supplies, at least the size asked for up to 0xfffff000, and above that no page is reserved |
| `Kmalloc.LargeEnoughIff` | os161-base-2.0.3/kern/vm/kmalloc.c:1190-1191 | the pages hold the request exactly when rounding it up does not wrap, and then one page less would not hold it; the count is zero exactly when it wraps |
| `Kmalloc.Heap.Kfree` | os161-base-2.0.3/kern/vm/kmalloc.c:1211-1223 | frees exactly the given block as SubpageKfree does; NULL is ignored; whole pages go back to free_kpages, page-aligned |
| `Kmalloc.Heap.ClientStore` | os161-base-2.0.3/kern/vm/kmalloc.c:141-152 | a client writing inside its block disturbs nothing of the heap |
| `Kmalloc.Heap.constructor` | os161-base-2.0.3/kern/vm/kmalloc.c:340-346 | the empty heap satisfies the invariant |
| `Kmalloc.Heap.NewPage` | os161-base-2.0.3/kern/vm/kmalloc.c:989-1014 | a page is carved and goes first on both lists, and nothing outside it is written |
| `Kmalloc.Heap.MakePage` | os161-base-2.0.3/kern/vm/kmalloc.c:966-1014 | a new page with free blocks is made, unless there is no pageref for it |
| `Kmalloc.Heap.Finish` | os161-base-2.0.3/kern/vm/kmalloc.c:922-954 | the block handed out was not in use, is aligned and large enough, and is now in use |
| `Kmalloc.Heap.GiveBlock` | os161-base-2.0.3/kern/vm/kmalloc.c:1105-1138 | the block is overwritten and becomes the head of its page's chain; nothing else is written |
| `Kmalloc.Heap.ReleasePage` | os161-base-2.0.3/kern/vm/kmalloc.c:1141-1148 | an empty page leaves both lists and its pageref is freed; that fails exactly if a root before the pageref's own has no page |
| `Kmalloc.RoundingWraps` | os161-base-2.0.3/kern/vm/kmalloc.c:1190-1191 | 0xfffff001 bytes round up to no page |
| `Kmalloc.Heap.Others` | os161-base-2.0.3/kern/vm/kmalloc.c:957-980 | while the lock is given up other calls may leave any heap that satisfies the invariant |
| `ProcTable.ScanFinds` | os161-base-2.0.3/kern/proc/proc.c:33-53 | the circular scan fails if and only if every slot other than last_pid is taken, and otherwise picks a free slot other than last_pid |
| `ProcTable.ScanFromFinds` | os161-base-2.0.3/kern/proc/proc.c:38-45 | every slot the scan passed over was taken |
| `ProcTable.Table.GetValidPid` | os161-base-2.0.3/kern/proc/proc.c:33-53 | computes that scan and terminates |
| `ProcTable.Table.Init` | os161-base-2.0.3/kern/proc/proc.c:204-242 | takes the slot the same scan picks; the process joins the table with no links |
| `ProcTable.Table.AddNewp` | os161-base-2.0.3/kern/proc/proc.c:64-81 | writing the slot of a process that is already there changes nothing but last_pid |
| `ProcTable.Table.Search` | os161-base-2.0.3/kern/proc/proc.c:128-143 | returns the process in the slot, null for a pid out of range |
| `ProcTable.Proc.RemoveChild` | os161-base-2.0.3/kern/proc/proc.c:637-656 | on the list as a sequence: removes the first occurrence, or fails exactly when there is none |
| `ProcTable.Proc.IsChild` | os161-base-2.0.3/kern/proc/proc.c:667-679 | decides membership in the child list |
| `ProcTable.Table.DeleteChildren` | os161-base-2.0.3/kern/proc/proc.c:602-626 | every child loses its father; no lookup fails |
| `ProcTable.Table.Deinit` | os161-base-2.0.3/kern/proc/proc.c:252-292 | never fails for a live process: it leaves the table, its children are orphaned, its father's list lacks it |
| `ProcTable.FatherIffChild` | os161-base-2.0.3/kern/proc/proc.c:569-656 | c is in p's child list, exactly once, if and only if p is c's father |
| `ProcTable.GoneKeeps` | os161-base-2.0.3/kern/proc/proc.c:252-292 | removing a process keeps the parent and child links in agreement |
| `ProcTable.LinkedKeeps` | os161-base-2.0.3/kern/syscall/proc_syscalls.c:177-184 | linking a fatherless child to its father keeps them in agreement |
| `ProcTable.GoneLinked` | os161-base-2.0.3/kern/syscall/proc_syscalls.c:192-205 | undoing a finished link leaves the family as it was before the fork |
| `ProcTable.Table.Fork` | os161-base-2.0.3/kern/syscall/proc_syscalls.c:144-209 | fails with ENPROC exactly when the scan fails; on success the child has the pid get_valid_pid announced and is linked both ways; on any failure table and links are as before |
| `ProcTable.Table.WaitPid` | os161-base-2.0.3/kern/syscall/proc_syscalls.c:70-132 | reaps exactly an existing child of the caller and only then changes the table; ECHILD, EFAULT, EINVAL and the success that waits for nothing are returned each under exactly its own condition; the ESRCH path is unreachable |
| `ProcTable.Table.constructor` | os161-base-2.0.3/kern/proc/proc.c:422-449 | the table holds only the kernel process |
| `ProcTable.Table.Place` | os161-base-2.0.3/kern/proc/proc.c:204-242 | the process joins the family with no links |
| `ProcTable.Table.Vacate` | os161-base-2.0.3/kern/proc/proc.c:252-292 | the process leaves the table |
| `ProcTable.Table.Unlist` | os161-base-2.0.3/kern/proc/proc.c:252-292 | the father's list loses the pid |
| `ProcTable.Table.Unlink` | os161-base-2.0.3/kern/proc/proc.c:252-292 | children are orphaned and the father's list loses the process, without a failure |
| `ProcTable.BornKeeps` | os161-base-2.0.3/kern/proc/proc.c:204-242 | a process without links keeps the family's links in agreement |
| `ProcTable.GoneInSteps` | os161-base-2.0.3/kern/proc/proc.c:252-292 | the steps of proc_deinit together are the removal of the process from the family |
| `ProcTable.GoneBorn` | os161-base-2.0.3/kern/syscall/proc_syscalls.c:160-181 | undoing a fork before the link leaves the family as it was |
| `ProcTable.Table.Abandon` | os161-base-2.0.3/kern/syscall/proc_syscalls.c:160-205 | proc_destroy on an unfinished child restores the family |
| `ProcTable.Table.LinkUp` | os161-base-2.0.3/kern/syscall/proc_syscalls.c:177-184 | the child joins its father's list and gets its father, or nothing changes |
| `ProcTable.Table.Launch` | os161-base-2.0.3/kern/syscall/proc_syscalls.c:186-208 | the child starts, or all is as before the fork |
| `ProcTable.Table.ForkRest` | os161-base-2.0.3/kern/syscall/proc_syscalls.c:160-208 | after the slot is taken: linked and started, or all as before the fork |
| `ProcTable.Table.ForkNew` | os161-base-2.0.3/kern/syscall/proc_syscalls.c:155-208 | sys_fork from the creation of the child on: linked and started under the announced pid, or all as before |
| `ProcTable.Table.Reap` | os161-base-2.0.3/kern/syscall/proc_syscalls.c:104-116 | a child that is waited for is found and leaves the family |
| `Uio.SentInParts` | os161-base-2.0.3/kern/lib/uio.c:41-119 | sending data in two calls has the effect of one call with all of it |
| `Uio.TakenInParts` | os161-base-2.0.3/kern/lib/uio.c:41-119 | taking bytes in two calls gives the bytes of one call |
| `Uio.SentThenTaken` | os161-base-2.0.3/kern/lib/uio.c:41-119 | what was sent to segments that do not overlap can be taken back |
| `Uio.Uio.Skip` | os161-base-2.0.3/kern/lib/uio.c:67-81 | empty segments are stepped over and the out-of-buffers panic is unreachable |
| `Uio.Uio.MoveOut` | os161-base-2.0.3/kern/lib/uio.c:41-119 | sends all of the data that there is room for, in order across segments, if and only if every byte of that can be copied; on a fault a prefix is sent and accounted for, and a further part of the data is written, up to exactly the first byte that cannot be copied, or none of it if the copy runs out of user space; resid stays tied to offset |
| `Uio.Uio.MoveIn` | os161-base-2.0.3/kern/lib/uio.c:41-119 | takes as many bytes as asked for or there are, in order across segments, if and only if all of them can be copied, with the same accounting; on a fault the kernel's buffer holds, behind the bytes accounted for, exactly those up to the first that cannot be copied, or none if the copy runs out of user space |
| `Uio.Uio.MoveZeros` | os161-base-2.0.3/kern/lib/uio.c:121-145 | has the effect of sending that many zeros in one call, if and only if all of them can be copied; on a fault some are sent and some more written |
| `Uio.Uio.Kinit` | os161-base-2.0.3/kern/lib/uio.c:151-164 | one segment whose length is the residue |
| `Uio.Uio.Advance` | os161-base-2.0.3/kern/lib/uio.c:111-113 | the first segment gives up its front; the bytes ahead are the same without them |
| `Uio.Uio.SendNext` | os161-base-2.0.3/kern/lib/uio.c:58-116 | one turn sends a nonempty chunk, or faults with nothing accounted for and the chunk written up to exactly the byte that cannot be copied |
| `Uio.Uio.SendZeros` | os161-base-2.0.3/kern/lib/uio.c:132-142 | one call of uiomove sends its zeros, or stops with some sent and some more written |
| `Uio.Uio.CopyTo` | os161-base-2.0.3/kern/lib/uio.c:83-109 | the copy to the first segment succeeds exactly if every byte can be copied, and otherwise leaves a first part written |
| `Uio.Uio.CopyFrom` | os161-base-2.0.3/kern/lib/uio.c:83-109 | the copy from the first segment succeeds exactly if every byte can be copied, and otherwise has read the bytes before the first that cannot |
| `Uio.Uio.SendFrom` | os161-base-2.0.3/kern/lib/uio.c:58-116 | the turn that follows bytes already sent |
| `Uio.Uio.SendAll` | os161-base-2.0.3/kern/lib/uio.c:58-118 | the loop: all that there is room for, or stopped exactly at the first byte that cannot be copied |
| `Uio.Uio.TakeNext` | os161-base-2.0.3/kern/lib/uio.c:58-116 | one turn takes a nonempty chunk, or faults with nothing accounted for, having read exactly up to the byte that cannot be copied |
| `Uio.Uio.SendZerosFrom` | os161-base-2.0.3/kern/lib/uio.c:132-142 | the turn that follows zeros already sent |
| `Uio.Uio.SendHere` | os161-base-2.0.3/kern/lib/uio.c:83-116 | the copy to the first segment and its accounting: a nonempty chunk, or a fault exactly at the byte that cannot be copied |
| `Uio.Uio.TakeHere` | os161-base-2.0.3/kern/lib/uio.c:83-116 | the copy from the first segment and its accounting, with the same exactness |
| `Uio.Uio.TakeAt` | os161-base-2.0.3/kern/lib/uio.c:58-116 | the turn that follows bytes already taken |
| `UserMem.CopyCheckIs` | os161-base-2.0.3/kern/vm/copyinout.c:116-143 | a nonempty region passes exactly if it starts in user space and does not wrap, and is cut off at the end of user space; an empty one passes only at address zero, as if it were all of user space |
| `UserMem.User.CopyIn` | os161-base-2.0.3/kern/vm/copyinout.c:152-179 | succeeds exactly for a nonempty region inside user space that can be reached, with its bytes |
| `UserMem.User.CopyOut` | os161-base-2.0.3/kern/vm/copyinout.c:188-215 | succeeds exactly for such a region, which then holds the data; nothing outside it is written |
| `UserMem.User.CopyInStr` | os161-base-2.0.3/kern/vm/copyinout.c:233-288 | succeeds exactly if a NUL ends the string within the length, inside user space, without a fault, and fails with ENAMETOOLONG exactly if the whole length can be read in user space and holds no NUL; nothing of the kernel's buffer outside its place is written |
| `UserMem.User.CopyOutStr` | os161-base-2.0.3/kern/vm/copyinout.c:233-321 | the same on the way out; the string with its NUL is in place and nothing else is written; on an error nothing outside the region is |
| `UserMem.WriteBytes` | os161-base-2.0.3/kern/vm/copyinout.c:188-215 | the copy stops at the first byte that cannot be reached, with all before it written |
| `UserMem.WriteOut` | os161-base-2.0.3/kern/vm/copyinout.c:188-215 | copyout's success exactly, and on a fault exactly how many bytes are written |
| `UserMem.ReadIn` | os161-base-2.0.3/kern/vm/copyinout.c:152-179 | copyin's success exactly, with the bytes; on a fault, exactly the bytes that were read before it |
| `UserMem.WriteString` | os161-base-2.0.3/kern/vm/copyinout.c:233-255 | the loop of copystr on the way out: it stops behind the first NUL, at the limit, or at a byte that cannot be reached, and writes nothing else |
| `UserMem.ReadString` | os161-base-2.0.3/kern/vm/copyinout.c:233-255 | the loop of copystr on the way in: it stops behind the first NUL, at the limit, or at a byte that cannot be reached |
| `UserMem.EndsIf` | os161-base-2.0.3/kern/vm/copyinout.c:233-255 | where the loop stopped tells exactly whether the string ends in time, and whether it is too long |
| `ExecArgs.WordRoundTrip` | os161-base-2.0.3/kern/syscall/exec.c:72-75 | a pointer comes back out of the four bytes it is stored in |
| `ExecArgs.FlatAt` | os161-base-2.0.3/kern/syscall/exec.c:82-91 | where each argument and its NUL are in the buffer |
| `ExecArgs.ArgBuf.CopyIn` | os161-base-2.0.3/kern/syscall/exec.c:64-95 | succeeds exactly if argv is a readable array, ending in NULL, of readable strings that fit, and the buffer then holds exactly those, one after another; if they can be read and do not fit, the error is EFAULT exactly if some of them fill the buffer to the last byte, and E2BIG otherwise |
| `ExecArgs.StackRoom` | os161-base-2.0.3/kern/syscall/exec.c:117-125 | the stack arithmetic stays below the old stack pointer or, if it wraps, leads above user space |
| `ExecArgs.ArgBuf.CopyOut` | os161-base-2.0.3/kern/syscall/exec.c:108-164 | succeeds exactly if the aligned layout has room in accessible user space below the stack pointer; the stack then holds a word-aligned argv ending in NULL and pointing to NUL-terminated copies, array and strings disjoint, ending less than a word below the old stack pointer, and nothing else is written |
| `ExecArgs.PassArgs` | os161-base-2.0.3/kern/syscall/proc_syscalls.c:221-275 | succeeds exactly if the arguments can be read, argbuf_fromuser takes them and they have room on the new stack, and then each reaches the new program unchanged, in order |
| `ExecArgs.ArgBuf.constructor` | os161-base-2.0.3/kern/syscall/exec.c:47-53 | the buffer holds no arguments |
| `ExecArgs.ArgBuf.NextArg` | os161-base-2.0.3/kern/syscall/exec.c:70-92 | one turn adds exactly the string the next pointer points to if it fits, ends exactly at a readable NULL, and for a readable string that does not fit fails with EFAULT if there is no room at all and with E2BIG otherwise |
| `ExecArgs.ArgBuf.PutArg` | os161-base-2.0.3/kern/syscall/exec.c:130-148 | one turn writes the pointer and the string, exactly if both places can be written |
| `ExecArgs.ArgBuf.PutString` | os161-base-2.0.3/kern/syscall/exec.c:140-143 | exactly one argument with its NUL is copied, exactly if its place can be written |
| `ExecArgs.ArgBuf.PutNext` | os161-base-2.0.3/kern/syscall/exec.c:130-148 | with i arguments in place, a turn leaves i + 1 in place |
| `ExecArgs.ArgBuf.PutArgs` | os161-base-2.0.3/kern/syscall/exec.c:127-150 | the loop puts all arguments in place, exactly if every place can be written |
| `ExecArgs.ArgBuf.PutNull` | os161-base-2.0.3/kern/syscall/exec.c:152-157 | the NULL that ends argv is written, exactly if it can be |
| `ExecArgs.ArgBuf.PutAll` | os161-base-2.0.3/kern/syscall/exec.c:127-157 | array, strings and NULL are in place, exactly if every place can be written |
| `ExecArgs.FitsIff` | os161-base-2.0.3/kern/syscall/exec.c:117-157 | the single copies all succeed exactly if the whole layout has room |
| `ExecArgs.FromUser` | os161-base-2.0.3/kern/syscall/exec.c:225-255 | argbuf_fromuser succeeds exactly if the arguments can be read and there is memory, and they fit in one page, or fit in ARG_MAX and no first part of them fills the page exactly |
| `ExecArgs.FullPageRefused` | os161-base-2.0.3/kern/syscall/exec.c:225-255 | the failing list: a first argument that fills the page and a second of one character, 4098 bytes in all, is refused although it is far below ARG_MAX |
| `ExecArgs.Overfull` | os161-base-2.0.3/kern/syscall/exec.c:76-88 | the argument that does not fit decides the error: EFAULT exactly if those before it fill the buffer |
| `ExecArgs.StringTried` | os161-base-2.0.3/kern/syscall/exec.c:76-88 | copyinstr of a readable string succeeds exactly if it fits with its NUL, and otherwise finds no NUL in the room left |
| `ExecArgs.TurnDecides` | os161-base-2.0.3/kern/syscall/exec.c:64-95 | each turn takes the next argument of the list or decides the outcome of the whole copy |
| `ExecArgs.ReadableOnce` | os161-base-2.0.3/kern/syscall/exec.c:64-95 | an address holds at most one readable argument list |
| `ExecArgs.ArgBuf.NextString` | os161-base-2.0.3/kern/syscall/exec.c:76-88 | the string part of a turn: exactly one more argument, or the error that its length and the room left call for |
| `ExecArgs.FirstNul` | os161-base-2.0.3/kern/vm/copyinout.c:233-255 | a string put behind others in the buffer is copied out up to its own NUL and no other |
| `ExecArgs.StackFitsIff` | os161-base-2.0.3/kern/syscall/exec.c:117-125 | the strings go to the highest word boundary that leaves room for them |
| `Numerals.DigitsLength` | os161-base-2.0.3/common/libc/printf/__printf.c:447-467 | a number has at most k digits exactly if it is below base^k |
| `Numerals.NumberFits` | os161-base-2.0.3/common/libc/printf/__printf.c:76-84 | every 64-bit number has at most 22 digits in base 8 or more, and the largest has all 22 in base 8, so the 23-byte buffer is tight |
| `Numerals.DigitsSpellIn` | os161-base-2.0.3/common/libc/printf/__printf.c:447-467 | in every base the digits spell the number, each below the base and the first not zero unless the number is |
| `Printf.Pf.Convert` | os161-base-2.0.3/common/libc/printf/__printf.c:429-475 | the right-to-left digit loop stays inside the buffer and yields the digits of the number |
| `Printf.Pf.Modifier` | os161-base-2.0.3/common/libc/printf/__printf.c:181-233 | after each modifier the state is what the modifier string as a whole means |
| `Printf.ModifierMeans` | os161-base-2.0.3/common/libc/printf/__printf.c:181-233 | what one more modifier adds to width, fill, alignment and prefix |
| `Printf.Pf.Pad` | os161-base-2.0.3/common/libc/printf/__printf.c:349-357 | sends the fill character that many times |
| `Printf.Pf.PrintStuff` | os161-base-2.0.3/common/libc/printf/__printf.c:366-404 | sends the field: prefixes and text padded to the width on the side and with the character asked for |
| `Printf.Pf.GetNum` | os161-base-2.0.3/common/libc/printf/__printf.c:241-311 | sign and magnitude make up the one number of the argument's size, signed or not, that is congruent to the argument modulo 2^32 or 2^64 |
| `Printf.Pf.PrintNum` | os161-base-2.0.3/common/libc/printf/__printf.c:241-491 | a numeric conversion sends its field; what that spells is stated by HexText, OctalText, UnsignedText, PointerText and DecimalText of Conversions |
| `Printf.Pf.PrintOther` | os161-base-2.0.3/common/libc/printf/__printf.c:535-562 | a string, character or unknown conversion sends its field |
| `Printf.Pf.EndField` | os161-base-2.0.3/common/libc/printf/__printf.c:156-169 | the state is that of an empty modifier string |
| `Printf.Pf.SendChar` | os161-base-2.0.3/common/libc/printf/__printf.c:497-563 | in every state, sending a character prints a first part of the text still due and leaves the rest due |
| `Printf.Vprintf` | os161-base-2.0.3/common/libc/printf/__printf.c:569-592 | the text sent is the recursively defined text of the format, and the result is its length |
| `Printf.Snp.Send` | os161-base-2.0.3/common/libc/printf/snprintf.c:73-93 | the buffer holds the first characters of all that was sent, up to its room, and nothing beyond is written |
| `Printf.Vsnprintf` | os161-base-2.0.3/common/libc/printf/snprintf.c:98-142 | stores the first min(len - 1, total) characters and a NUL, nothing if len is 0, and returns total |
| `Printf.Pf.Print` | os161-base-2.0.3/common/libc/printf/__printf.c:145-150 | the text is sent and counted |
| `Printf.Pf.EndConversion` | os161-base-2.0.3/common/libc/printf/__printf.c:497-563 | a type character sends its field and resets the state |
| `Printf.Pf.SendAll` | os161-base-2.0.3/common/libc/printf/__printf.c:569-592 | the loop over the format sends the text of the format |
| `Printf.FieldParts` | os161-base-2.0.3/common/libc/printf/__printf.c:366-404 | the pieces sent, in their order, make up the field |
| `Printf.Snp.constructor` | os161-base-2.0.3/common/libc/printf/snprintf.c:98-125 | the room is one less than the buffer, for the NUL |
| `Printf.StandsForOne` | os161-base-2.0.3/common/libc/printf/__printf.c:241-311 | at most one number of a size is congruent to the bits passed |
| `Printf.MagnitudeStandsFor` | os161-base-2.0.3/common/libc/printf/__printf.c:241-311 | the sign and magnitude printed are those of the number the argument stands for, and no others are |
| `Atoi.Accumulate` | os161-base-2.0.3/common/libc/stdlib/atoi.c:71-92 | the digit loop keeps the value of the digits modulo 2^32 |
| `Atoi.Atoi` | os161-base-2.0.3/common/libc/stdlib/atoi.c:49-101 | blanks, sign and digits are read as the int they stand for, modulo 2^32 |
| `Atoi.DigitsSpell` | os161-base-2.0.3/common/libc/printf/__printf.c:447-467 | the decimal digits printed spell the number |
| `Atoi.ParsedNumber` | os161-base-2.0.3/common/libc/stdlib/atoi.c:49-101 | what atoi reads from a padded signed field: the number, or the number with the zeros put behind it |
| `Atoi.ZerosChange` | os161-base-2.0.3/common/libc/stdlib/atoi.c:71-92 | a nonzero int with zeros behind it reads as another int, even in 32 bits |
| `Atoi.AtoiOfDecimal` | os161-base-2.0.3/common/libc/printf/__printf.c:365-491 | for every int, width and flags, atoi of the %d text gives the int back if and only if it is not a nonzero number padded with zeros on the right |
| `Atoi.ParsedField` | os161-base-2.0.3/common/libc/stdlib/atoi.c:49-101 | what atoi reads from the %d text of a number, for all modifiers |
| `Atoi.ReadBackIff` | os161-base-2.0.3/common/libc/stdlib/atoi.c:49-101 | when the number read back is the number printed |
| `Atoi.PaddedOneIsTenThousand` | os161-base-2.0.3/common/libc/printf/__printf.c:366-404 | the failing input: 1 printed with %-05d reads as 10000 |
| `Atoi.TextOfDecimal` | os161-base-2.0.3/common/libc/printf/__printf.c:569-592 | %, any modifiers and d print exactly that conversion's field |
| `Atoi.DecimalHasNoNul` | os161-base-2.0.3/common/libc/printf/__printf.c:366-404 | the text of a %d conversion has no NUL in it |
| `Atoi.PrintAndRead` | os161-base-2.0.3/common/libc/printf/snprintf.c:98-142 | vsnprintf of a %d conversion into a buffer with room, read back from the buffer by atoi, gives the int back under exactly the condition of AtoiOfDecimal |
| `Atoi.ValueSpelled` | os161-base-2.0.3/common/libc/stdlib/atoi.c:71-92 | a decimal string is read as the number it spells in base ten |
| `Atoi.ParsedText` | os161-base-2.0.3/common/libc/stdlib/atoi.c:49-101 | blanks or tabs, a plus, a minus or neither, digits and something else are read as the number that the digits spell, with that sign |
| `ChildLists.List.constructor` | os161-base-2.0.3/kern/proc/proc.c:204-242 | a new process has no children |
| `ChildLists.List.Add` | os161-base-2.0.3/kern/proc/proc.c:569-592 | the walk to the last node refines appending to the sequence of pids; without memory for the node nothing changes |
| `ChildLists.List.Find` | os161-base-2.0.3/kern/proc/proc.c:637-650 | the walk stops at the first node with that pid, with the node before it, or at the end |
| `ChildLists.List.Unlink` | os161-base-2.0.3/kern/proc/proc.c:643-648 | bypassing the node leaves a well-formed list of the others |
| `ChildLists.List.Remove` | os161-base-2.0.3/kern/proc/proc.c:637-656 | refines removing the first occurrence of the pid, and fails exactly if there is none |
| `ChildLists.List.Has` | os161-base-2.0.3/kern/proc/proc.c:667-679 | decides membership in the list |
| `ChildLists.List.RemoveFirst` | os161-base-2.0.3/kern/proc/proc.c:602-624 | one turn of delete_child_list takes the first pid off |
| `ChildLists.PushChain` | os161-base-2.0.3/kern/proc/proc.c:569-592 | pointing the last node at a new one leaves a well-formed list |
| `ChildLists.BypassConsecutive` | os161-base-2.0.3/kern/proc/proc.c:643-648 | pointing a node past the next one leaves the others in their order |
| `CvCalls.BroadcastWakesAll` | os161-base-2.0.3/kern/thread/synch.c:400-414 | from the call, in any reachable state: cv_broadcast wakes exactly the threads asleep on its condition variable and changes nothing else |
| `CvCalls.SignalWakesHead` | os161-base-2.0.3/kern/thread/synch.c:381-398 | from the call: cv_signal wakes exactly the thread that has been asleep there longest |
| `CvCalls.WaitSleeps` | os161-base-2.0.3/kern/thread/synch.c:356-379 | from the call, no other thread moving: cv_wait gives up the lock and sleeps at the end of the channel of its own condition variable |
| `CvCalls.WaitIsOnItsOwn` | os161-base-2.0.3/kern/thread/synch.c:356-379 | over every run from the call until the return, the thread is on no channel but that of its own condition variable, and it returns owning the lock |
| `CvCalls.WokenComesOut` | os161-base-2.0.3/kern/thread/synch.c:356-379 | a woken thread takes the lock again and comes out of cv_wait |
| `CvCalls.ReleaseFrees` | os161-base-2.0.3/kern/thread/synch.c:258-281 | from the call: the lock is free and the thread that waits longest is awake |
| `CvCalls.ReleaseHandsOn` | os161-base-2.0.3/kern/thread/synch.c:225-281 | the thread that has waited longest owns the lock after two steps of its own |
| `CvCalls.AcquireTakes` | os161-base-2.0.3/kern/thread/synch.c:225-256 | from the call on a free lock: the caller owns it |
| `CvCalls.FreeLockIsTaken` | os161-base-2.0.3/kern/thread/synch.c:225-256 | a thread that tries, or was woken to try again, owns a free lock two steps later |
| `CvCalls.TakenLockIsAwaited` | os161-base-2.0.3/kern/thread/synch.c:225-256 | a thread that finds the lock taken sleeps behind those that wait already |
| `CvCalls.LockIsLeft` | os161-base-2.0.3/kern/thread/synch.c:258-281 | lock_release after its test, called directly or by cv_wait |
| `CvCalls.UnitIsPosted` | os161-base-2.0.3/kern/thread/synch.c:262-281 | the V inside lock_release gives the unit back and wakes the longest waiter |
| `Scheduling.YieldRunsHead` | os161-base-2.0.3/kern/thread/thread.c:559-725 | in any reachable state thread_yield goes on to the head of the run queue, and the thread that yields goes to the end of it; nothing else moves |
| `Scheduling.RoundRobin` | os161-base-2.0.3/kern/thread/thread.c:559-725 | threads that keep yielding take turns: after k yields the k-th of the queue runs and those before it are behind the others in order; after as many yields as there are threads the first runs again |
| `Scheduling.OneRound` | os161-base-2.0.3/kern/thread/thread.c:559-725 | one yield turns the line of a CPU's threads by one |
| `Scheduling.SwitchSwitches` | os161-base-2.0.3/kern/thread/thread.c:594-661 | the current thread goes to the end of its list, the head of the run queue runs, and the CPU idles if there is none; every other CPU, list and thread is as it was |
| `Scheduling.SleepJoinsChannel` | os161-base-2.0.3/kern/thread/thread.c:1002-1015 | wchan_sleep puts the thread at the end of the channel and runs the head of the run queue, or idles |
| `Scheduling.PollRunsHead` | os161-base-2.0.3/kern/thread/thread.c:640-661 | an idle CPU runs the head of its run queue as soon as there is one |
| `Scheduling.ExorciseDestroys` | os161-base-2.0.3/kern/thread/thread.c:294-305 | exorcise destroys all zombies of its CPU and no other thread |
| `Scheduling.ExitJoinsZombies` | os161-base-2.0.3/kern/thread/thread.c:775-800 | thread_exit makes the thread a zombie of its CPU and goes on to the head of the run queue |
| `Scheduling.ExitIsDestroyed` | os161-base-2.0.3/kern/thread/thread.c:775-800 | a thread that exits is destroyed when the next one is through its switch, and is on no list then |
| `Scheduling.WakeAllTakesAll` | os161-base-2.0.3/kern/thread/thread.c:1050-1080 | wchan_wakeall takes every thread off the channel, in order, and nothing else |
| `Scheduling.WakeOneTakesHead` | os161-base-2.0.3/kern/thread/thread.c:1021-1045 | wchan_wakeone takes the head of the channel, if there is one, and nothing else |
| `Scheduling.HandIsQueued` | os161-base-2.0.3/kern/thread/thread.c:448-477 | thread_make_runnable puts the thread at the end of its own CPU's run queue, ready |
| `Scheduling.HandIsUnloaded` | os161-base-2.0.3/kern/thread/thread.c:1068-1080 | when all threads taken off have been made runnable, each is at the end of its own CPU's run queue, in the order of the channel, and all else is as it was |
| `Scheduling.ChannelIsQueue` | os161-base-2.0.3/kern/thread/thread.c:1002-1080 | over every run a wait channel is a queue: those woken and then those asleep at the end are those asleep at the start and then those that went to sleep, in order |
| `Scheduling.ForkQueuesChild` | os161-base-2.0.3/kern/thread/thread.c:491-545 | thread_fork puts the new thread at the end of the run queue of its maker's CPU, ready |
| `Scheduling.QueueIsCounted` | os161-base-2.0.3/kern/thread/thread.c:859-869 | a migration starts by counting the run queue and changes nothing else |
| `Scheduling.VictimsAreTaken` | os161-base-2.0.3/kern/thread/thread.c:876-883 | a migration takes the last threads of the run queue, in order |
| `Scheduling.VictimIsGiven` | os161-base-2.0.3/kern/thread/thread.c:885-936 | a victim goes to the end of the other CPU's run queue and belongs there, or behind the other victims if it is the current thread |
| `Scheduling.VictimsGoBack` | os161-base-2.0.3/kern/thread/thread.c:938-949 | what is left goes back to the end of the run queue |
| `Scheduling.TakenIsRestored` | os161-base-2.0.3/kern/thread/thread.c:851-953 | a migration that gives nothing away leaves everything as it was |
| `SplLevels.LevelRestored` | os161-base-2.0.3/kern/thread/thread.c:559-725 | over every run: a thread that enters thread_switch runs on, the next time it is outside again, at the level at which it went in, on whatever CPU, after whatever steps of others, also after an early return |
| `SplLevels.LevelIsKept` | os161-base-2.0.3/kern/thread/thread.c:559-725 | inside thread_switch the level to go back to stays as it is, whoever moves |
| `SplLevels.SwitchSaves` | os161-base-2.0.3/kern/thread/thread.c:567-568 | on entry the level to go back to is the thread's own |
| `SplLevels.NewThreadStartsLow` | os161-base-2.0.3/kern/thread/thread.c:735-770 | over every run a new thread first runs at low level |
| `SplLevels.EarlyReturn` | os161-base-2.0.3/kern/thread/thread.c:586-592 | thread_yield with nothing else to run leaves the CPUs, the locks, the other threads and its own level and count as they were |
| `SplLevels.ExitIsFinal` | os161-base-2.0.3/kern/thread/thread.c:775-800 | over every run a thread that has entered thread_switch to exit never runs again |
| `SplLevels.NobodyIsLost` | os161-base-2.0.3/kern/thread/thread.c:559-725 | over every run a thread stays there, running or waiting to be chosen, until it exits |
| `SplLevels.NewIsPresent` | os161-base-2.0.3/kern/thread/thread.c:491-545 | a new thread waits to be chosen |
| `SplLevels.AnyoneMayRun` | os161-base-2.0.3/kern/thread/thread.c:640-725 | where thread_switch chooses, it may go on to any thread that waits, or back to the one it came from unless that exits, which then runs at its level |
| `Conversions.HexText` | os161-base-2.0.3/common/libc/printf/__printf.c:241-491 | for all modifiers: %x prints a field whose digits spell in base sixteen the number that the argument's bits stand for, without leading zeros, behind 0x exactly if there is a # |
| `Conversions.OctalText` | os161-base-2.0.3/common/libc/printf/__printf.c:241-491 | %o the same in base eight, behind 0 exactly if there is a # |
| `Conversions.UnsignedText` | os161-base-2.0.3/common/libc/printf/__printf.c:241-491 | %u the same in base ten, with nothing in front |
| `Conversions.PointerText` | os161-base-2.0.3/common/libc/printf/__printf.c:241-491 | %p prints the low 32 bits in base sixteen, always behind 0x |
| `Conversions.DecimalText` | os161-base-2.0.3/common/libc/printf/__printf.c:241-491 | %d prints the signed number that the bits stand for in base ten, behind its sign |
| `Conversions.StringText` | os161-base-2.0.3/common/libc/printf/__printf.c:535-545 | %s prints the string, or (null) |
| `Conversions.CharText` | os161-base-2.0.3/common/libc/printf/__printf.c:546-562 | %c prints the character |
| `Conversions.OtherText` | os161-base-2.0.3/common/libc/printf/__printf.c:546-562 | anything else behind a %, such as a second %, is printed itself and uses up no argument |
| `Conversions.ArgumentsInOrder` | os161-base-2.0.3/common/libc/printf/__printf.c:497-592 | each conversion uses up the argument it prints, so conversions print the arguments in order |
| `Conversions.PlainText` | os161-base-2.0.3/common/libc/printf/__printf.c:497-510 | characters outside conversions are printed as they are |
| `Conversions.TextOfOne` | os161-base-2.0.3/common/libc/printf/__printf.c:497-592 | %, any modifiers and a type print that conversion's field, and the rest of the format follows |
| `Conversions.FieldIsLaid` | os161-base-2.0.3/common/libc/printf/__printf.c:366-404 | a field is as wide as asked for or as its parts need, with the parts at the ends that the modifiers call for and filling between |
| `Conversions.LongLongIff` | os161-base-2.0.3/common/libc/printf/__printf.c:181-205 | an argument is taken for a long long exactly if the l's behind the last z are even in number and not none |
| `Families.FamilyAges` | os161-base-2.0.3/kern/proc/proc.c:569-656 | over every run of forks and reaps: the links agree in both directions, every process is younger than its father, and every child list is in the order of birth |
| `Families.FamilyIsForest` | os161-base-2.0.3/kern/proc/proc.c:569-656 | over every such run no process is its own ancestor |
| `Families.ForkAges` | os161-base-2.0.3/kern/syscall/proc_syscalls.c:177-184 | a new child, listed last, is the youngest |
| `Families.ReapAges` | os161-base-2.0.3/kern/proc/proc.c:252-292 | a process that is gone leaves the others in order |

## Left out

- Threads: machine-dependent code (switchframe, trap entry, `cpu_idle`, IPIs, memory barriers) is taken to work; what interrupt handlers do is limited to wakeups and migration.
- Threads.StepSafe: the stack guard check in `thread_switch` and the assertion in `thread_destroy` that `t_proc` is NULL are not modelled.
- Spl.RunSafe: giving up a spinlock that another thread took on the same CPU, which `spinlock_release` does not notice, counts as misuse.
- Spl: the interrupt enabling inside `cpu_idle` and before the first CPU exists is not modelled.
- Migration: the source's unsigned totals are unbounded here; other CPUs may do anything to their own queues but only append to the donor's.
- Semaphores: the spinlock inside P and V is taken to make each region atomic; strict FIFO order is not promised by the source.
- Threads.ForkKeeps: the failures of `thread_fork` for lack of memory, which undo themselves before the thread is queued, are not modelled.
- LockCv: one lock with any number of condition variables; destroying locks and condition variables is not modelled.
- Kmalloc.Heap.MakePage: the lock is also given up inside `allocpagerefpage`, between marking a pageref and getting its page; that window is not modelled.
- Kmalloc: GUARDS, LABELS and SLOW builds are not modelled; memory is word-granular.
- ProcTable: the kernel process is taken to have pid 0 and no links, which `proc_create` does not establish; failures in `proc_init` or `proc_create_runprogram` after the slot is taken are not modelled; the concurrent exit and wait handshake is not modelled, so a waited-for child has already exited; a process has its children as the sequence that `ChildLists` proves the linked list to be.
- UserMem: a copy proceeds byte by byte in order, so the state of a region after a fault is that of such a copy.
- ExecArgs: the exec throttle semaphore is not modelled.
- Uio: a kernel buffer that overlaps the segments, the checks of `uio_rw` and `uio_space`, and overflow of `uio_offset` are not modelled.
- Printf: field widths and the character count are unbounded, where the source's int would overflow; an argument of the wrong kind, undefined in C, reads as zero or as a null string.
- Hangman: printing the cycle that was found is not modelled.
- `file_syscalls.c`, the VFS, `loadelf`, `runprogram` and address spaces: they rest on file system and VM operations outside this model.
- `bswap.c`, `bitmap.c`, `array.c`, time and string functions, and the unsigned, shift and compare millicode: they would only add easy members.
- Menu, console, `kprintf`, autoconfiguration and test programs: input, output or generated text.
