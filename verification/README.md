# Properties of the CS:APP example code

A Dafny 4.11 model of the parts of the *Computer Systems: A Programmer's Perspective* code that keep
non-trivial invariants, with proofs of what those parts promise. `dafny verify dfyconfig.toml` checks
the whole project.

| file | models |
|---|---|
| `Foundations.dfy` | sums over threads, remainders, runs of a transition system |
| `BoundedBuffer.dfy`, `ProducerConsumer.dfy` | the semaphore-protected buffer and its producer and consumer |
| `ParallelSum.dfy` | the mutex-protected parallel sum |
| `ReadersWriters.dfy`, `TokenReadersWriters.dfy` | the three readers/writers solutions |
| `JobControl.dfy` | the forking loops that keep a job list, with and without the race |
| `Suspend.dfy` | waiting for a child with `sigsuspend` |
| `Strings.dfy`, `WordTable.dfy`, `HashTable.dfy`, `SortWords.dfy`, `Ngrams.dfy`, `WordFreq.dfy`, `WordReport.dfy` | the n-gram counter: lower case, hashing, linked buckets, insertion sort, ring of words |
| `Vec.dfy`, `Combine.dfy`, `Combiners.dfy`, `CombineForms.dfy`, `SimdForm.dfy` | the vector type and its combining functions |
| `WrittenLoops.dfy`, `CombineTable.dfy`, `CombineLaws.dfy`, `Division.dfy`, `IntegerBuilds.dfy` | the loop of each combining function by name, which laws of OP it needs, and the builds with integer elements and with division |
| `Rio.dfy` | robust buffered and unbuffered I/O |
| `Pool.dfy` | the descriptor pool of the select-based server |
| `Bubble.dfy`, `Sampler.dfy`, `GraphConvert.dfy` | bubble sort and its counts, the K-best sampler, in-place graph conversion |

## How the model is built

**Concurrent programs** are transition systems. A state holds the shared variables, the semaphores
and, for every thread of an arbitrarily long sequence, its program point and private variables.
`Enabled` and `Step` give the effect of one atomic action; `x++` and `gsum += i` are a load and a
store. A run is any finite sequence of states linked by steps, so a statement about all runs is a
statement about all interleavings and all numbers of threads. Beside each system a class performs the
same actions by assignments to its fields; its methods are proved to do exactly what `Step` says, so
what is proved of runs holds of the assignments. `P` blocks while the semaphore is zero, `V` adds one;
which waiting thread goes first is left open.

**Signals.** The kernel keeps the children that are alive and those that have ended, one pending bit
per signal, and the blocked mask. The steps of the kernel (a child ends, a signal arrives, a pending
signal that is not blocked is delivered) may happen between any two statements. Masks are sets over
SIGCHLD, SIGINT and one signal that stands for all others. A handler runs with its own signal blocked.

**Programs that update memory** are methods over fields, arrays and linked nodes, with loops where
the source has them. Where a result is easiest to say on values, a function says it, the method is
proved to compute that function, and the source's promise is proved about the function.

**The combining functions.** A plan says how many elements a loop turn takes, which accumulator each
goes to, how the operands are parenthesized and how the accumulators are put together;
`Combine.Combine` executes a plan with the loops of the source. Theorems about all plans of a kind
cover a whole family. `WrittenLoops.Written` lists the loop of each of 63 functions as it stands in
`combine.c`: the elements per turn, every assignment with its accumulator and operands in the order of
the text, the accumulator for the remaining elements, and the expression that is stored.
`CombineTable.FamilyOf` says which family each belongs to, and `WrittenLoops.TableDescribes` proves that
this describes the loop. `CombineForms` has the book's combine4 to combine7 as programs, and `SimdForm`
has simd_v1 with its `int` count, each proved to compute what its entry in the table says. The two
functions that work on halves are `Combiners.SplitHalves`.

Which laws of OP make a function store what combine1 stores is settled in both directions. For every
operator with an identity (`WrittenLoops.NamedExactly`): no law for the functions that take the elements
one at a time into one accumulator, exactly associativity for the reassociated ones, and exactly
associativity together with commutativity for several accumulators and for SIMD. For combine6, combine7
and the two halves an identity on the left is enough (`CombineLaws.Combine6Exactly`, `CombineLaws.Combine7Exactly`,
`CombineLaws.SplitHalvesExactly`). With OP defined as division 1 is an identity on the right only;
there, over the reals, exactly the functions that need no law agree with combine1
(`Division.DivisionExactly`, `Division.SplitHalvesDoNotDivide`).

**Input and output.** The kernel's answers to `read` and `write` follow an arbitrary schedule of short
counts, interruptions and errors. The words of a document, the timings of the clock and the answers
of `select` are parameters.

## What the code does that its comments do not say

- `rio_readlineb` returns the number of bytes stored when the line ends in a newline, but one more
  than that when it is cut by `maxlen` or by the end of the file (`Rio.LineReturn`). At the end of the
  file it returns 0 and stores nothing, not even the NUL.
- `rio_readnb` never sees EINTR, because `rio_read` has already retried.
- `set_vec_length` reallocates when the new length is greater than the allocated one; its comment says
  "greater or equal". Growing past the allocation loses the contents.
- `word_freq` prints `wcnt`, the number of words read, as its number of n-grams. The two agree exactly
  when the n-gram size is 1 or there are no words (`WordFreq.CountNgrams`).
- `sort_words` writes through `array[-1]` when the table is empty (`WordSort.SortWords`). So `word_freq`
  leaves its array exactly when a listing is asked for, as it is by default, and the document has fewer
  than n words (`WordReport.CountAndReport`). Without a listing `scnt` is reported as 0, whatever the
  document. `sort_words` relinks the nodes but leaves the heads in the table, so no insertion may follow it.
- `psum-mutex` accepts a negative number of threads that divides the number of elements, creates no thread
  and reports an error, unless there is one element only (`ParallelSum.AcceptedArguments`;
  `ParallelSum.NegativeCount` is `psum-mutex -2 2`).
- `simd_v1` keeps the length of its vector in an `int`. It is right for every length an `int` can hold; a
  longer vector is combined only in part, or overrun (`SimdForm.SimdV1`).
- `rio_readlineb` with `maxlen` 0 returns 1 and stores a NUL all the same (`Rio.RioBuf.ReadLineB`).
- `fcyc` returns 0.0 if it is told to take no samples and its only timing is not positive.
- In `procmask1` a child can be reaped before it is added to the job list. `JobControl.RacyRun` gives
  such a run, and `JobControl.RacyRunsFailExactly` says for every run when it happens: the events are out
  of order exactly when the handler was entered between a `fork` and the following block.

## Model

| member | source | states |
|---|---|---|
| `BoundedBuffer.StepKeepsInv` | csapp-master/conc/sbuf.c:28-49 | every step of every thread keeps the conservation laws that tie `slots`, `items`, `mutex`, `rear` and `front` to the slots written and read and to the threads in mid-call |
| `BoundedBuffer.RunsAreSafe` | csapp-master/conc/sbuf.c:28-49 | in every run of any number of threads 0 <= rear - front <= n, and the removed items are a prefix of the inserted ones |
| `BoundedBuffer.NoUnreadSlotOverwritten` | csapp-master/conc/sbuf.c:32 | the slot about to be written is not the slot of any item still to be read |
| `BoundedBuffer.LockIsExclusive` | csapp-master/conc/sbuf.c:31-33 | two threads are never both between P and V of `mutex` |
| `BoundedBuffer.StuckExactly` | csapp-master/conc/sbuf.c:28-49 | a state is stuck if and only if all threads are between calls, and no insert is left or the buffer is full, and no removal is left or the buffer is empty |
| `BoundedBuffer.BlockedPairMeansProgress` | csapp-master/conc/sbuf.c:30-43 | a thread about to insert and one about to remove are never left without a thread that can step |
| `BoundedBuffer.StuckMeansFinished` | csapp-master/conc/sbuf.c:28-49 | threads that only insert or only remove, with equally many calls of each, get stuck only when every call has returned and every item has been removed |
| `BoundedBuffer.MaximalRunsFinish` | csapp-master/conc/sbuf.c:28-49 | a run of such threads that cannot go on has finished all calls, in a number of steps fixed by the calls |
| `BoundedBuffer.StepDoesOneUnitOfWork` | csapp-master/conc/sbuf.c:28-49 | every step lowers the work left by exactly one, so no run is infinite |
| `BoundedBuffer.RunsDeliverOnce` | csapp-master/conc/sbuf.c:40-49 | in every run each removed value has been handed to exactly one call |
| `BoundedBuffer.RunsStoreWhatWasAsked` | csapp-master/conc/sbuf.c:28-36 | at every moment of every run of any threads, each value has been stored as often as the calls of `sbuf_insert` name it, less the calls that have still to store it |
| `BoundedBuffer.EverythingIsHandedOver` | csapp-master/conc/sbuf.c:28-49 | when balanced producers and consumers have finished, the calls of `sbuf_remove` have returned each value exactly as often as `sbuf_insert` was called with it |
| `BoundedBuffer.RunsOnlyAppend` | csapp-master/conc/sbuf.c:28-49 | calls are made in the order of each thread's script, and what is stored, removed and returned to a thread is only ever added to at the end |
| `BoundedBuffer.Sbuf.constructor` | csapp-master/conc/sbuf.c:7-15 | an initialised buffer with any threads is an initial state of the transition system |
| `BoundedBuffer.Sbuf.Advance` | csapp-master/conc/sbuf.c:28-49 | the assignments to the record perform exactly one step of the transition system, or none if the thread is blocked |
| `BoundedBuffer.Sbuf.Run` | csapp-master/conc/sbuf.c:28-49 | under any schedule the record stays safe, and stores nothing but the arguments of the calls |
| `ProducerConsumer.ConsumerReceivesInOrder` | csapp-master/conc/prodconsn.c:14-35 | at every moment of every run the consumer has received an initial segment of 0, 1, 2, ... |
| `ProducerConsumer.EveryRunDeliversEverything` | csapp-master/conc/prodconsn.c:14-47 | for any number of items and any buffer size a run has at most 14 steps per item, is stuck exactly when it has taken them all, and then both loops have ended and the consumer has all items in order |
| `ProducerConsumer.Program` | csapp-master/conc/prodconsn.c:8-47 | with the program's constants, under any schedule |
| `ParallelSum.StepKeepsInv` | csapp-master/conc/psum-mutex.c:64-68 | `gsum` plus all indices still to be added stays the same over every load and store |
| `ParallelSum.StuckExactlyWhenFinished` | csapp-master/conc/psum-mutex.c:57-70 | a state is stuck if and only if every thread has finished, and then `gsum` is the total |
| `ParallelSum.NoUpdateIsLost` | csapp-master/conc/psum-mutex.c:36-70 | for any number of threads and any interleaving a run that cannot go on took four steps per element and passes the final check |
| `ParallelSum.AcceptedArguments` | csapp-master/conc/psum-mutex.c:26-49 | for every non-zero number of threads up to `MAXTHREADS` that `main` accepts, a run that cannot go on passes the final check if and only if the number is positive or there is one element only; no intermediate sum leaves the range of a 64-bit long |
| `ParallelSum.AcceptedExactly` | csapp-master/conc/psum-mutex.c:26-33 | `main` accepts exactly the powers of two up to the number of elements, and their negatives, for at most 2^31 elements |
| `ParallelSum.NegativeCount` | csapp-master/conc/psum-mutex.c:26-49 | `psum-mutex -2 2` is accepted, creates no thread, and fails the final check |
| `ParallelSum.Program.Advance` | csapp-master/conc/psum-mutex.c:57-70 | the assignments to the globals perform exactly one step of the transition system |
| `ParallelSum.Program.Run` | csapp-master/conc/psum-mutex.c:57-70 | under any schedule, once all threads have finished the sum is right |
| `ReadersWriters.StepKeepsInv` | csapp-master/conc/rw1.c:12-48 | every step keeps the laws that tie `mutex`, `w`, `wg` and `readcnt` to the threads at each program point, also between the test of the count and P(&w) |
| `ReadersWriters.RunsAreSafe` | csapp-master/conc/rw2.c:11-43 | in every run of either program a writer inside excludes everyone else, at most one writer is past the gate if there is one, `readcnt` counts the readers between increment and decrement, and the state is not stuck |
| `ReadersWriters.InvImpliesSafe` | csapp-master/conc/rw1.c:38-48 | the counting laws imply exclusion |
| `ReadersWriters.ReadingMeansGroupHolds` | csapp-master/conc/rw1.c:15-28 | while anyone reads, the readers as a group hold `w` |
| `ReadersWriters.NeverStuck` | csapp-master/conc/rw1.c:12-48 | no state is deadlocked, even while a reader holds `mutex` and waits for `w` |
| `ReadersWriters.ReadersShare` | csapp-master/conc/rw1.c:12-33 | for any number of readers and writers, with the gate or without, there is a run in which any number of readers are in the critical section together, with `mutex` free and `w` held |
| `ReadersWriters.ReadersLeave` | csapp-master/conc/rw1.c:12-33 | and they can all leave again, to the state the program began with |
| `ReadersWriters.WriterWrites` | csapp-master/conc/rw2.c:30-43 | any writer can come to write, and leaves everything as it was |
| `ReadersWriters.ReadersRead` | csapp-master/conc/rw1.c:15-28 | in every run a reader that has entered and comes to leave has been in its critical section in between |
| `ReadersWriters.WaitingUntilWriting` | csapp-master/conc/rw2.c:30-43 | in every run a writer past the gate stays there until it writes |
| `ReadersWriters.Program.Advance` | csapp-master/conc/rw1.c:12-48 | the assignments to the globals perform exactly one step of the transition system |
| `TokenReadersWriters.StepKeepsInv` | csapp-master/conc/rw3.c:17-45 | free tokens, readers inside and tokens held by writers always add up to N |
| `TokenReadersWriters.InvImpliesSafe` | csapp-master/conc/rw3.c:34-43 | a writer in its critical section holds all tokens, so it is alone |
| `TokenReadersWriters.RunsAreSafe` | csapp-master/conc/rw3.c:17-45 | in every run, for any N >= 1 and any number of threads, tokens are conserved and a writer writes alone, with `wmutex` or without; with it the state is never stuck |
| `TokenReadersWriters.NeverStuck` | csapp-master/conc/rw3.c:17-45 | some thread can always step, also while one writer returns tokens and the next collects them |
| `TokenReadersWriters.ReadersShare` | csapp-master/conc/rw3.c:17-27 | up to N readers can be in the critical section together, and then no further one can enter |
| `TokenReadersWriters.ReadersLeave` | csapp-master/conc/rw3.c:17-27 | and they can all leave again, to the state the program began with |
| `TokenReadersWriters.WriterLeaves` | csapp-master/conc/rw3.c:29-45 | any writer can come to write with all tokens in its hands, and gives them all back |
| `TokenReadersWriters.WritersWrite` | csapp-master/conc/rw3.c:29-45 | in every run a writer that has begun to collect writes before it gives anything back |
| `TokenReadersWriters.WithoutMutexWritersDeadlock` | csapp-master/conc/rw3.c:34-37 | for every N >= 2 the program without `wmutex` has a run of two writers, from its start to a state in which neither can go on |
| `TokenReadersWriters.StuckExactly` | csapp-master/conc/rw3.c:34-37 | a reachable state of that program is stuck if and only if no token is free and every thread is a reader outside or a writer that still lacks tokens |
| `TokenReadersWriters.OneTokenNeverStuck` | csapp-master/conc/rw3.c:34-37 | with N = 1 the program is never stuck, `wmutex` or not |
| `TokenReadersWriters.Program.Advance` | csapp-master/conc/rw3.c:17-45 | the assignments perform exactly one step of the transition system |
| `JobControl.StepKeepsInv` | csapp-master/ecf/procmask2.c:16-55 | every step of main, the handler or the kernel keeps the laws about masks, children and job list, in both programs |
| `JobControl.MaskedRunsKeepJobList` | csapp-master/ecf/procmask2.c:16-55 | in every run, whenever SIGCHLD is unblocked and no handler is active the job list is the set of unreaped children; each child goes through fork, addjob, deletejob in this order and once each |
| `JobControl.RunsRestoreMasks` | csapp-master/ecf/procmask2.c:16-55 | in every run of either program, at every statement of main and of the handler, exactly the signals of the initial mask and those the text blocks there are blocked; every iteration ends with the mask it began with, and the handler returns to the mask it interrupted |
| `JobControl.Iteration` | csapp-master/ecf/procmask2.c:44-53 | an iteration that nothing interrupts forks one child, lists it, and changes nothing else |
| `JobControl.OneSignalReapsAll` | csapp-master/ecf/procmask2.c:16-55 | any number of children can be forked and listed, and when they have all ended the one pending SIGCHLD is enough to reap and remove every one |
| `JobControl.RacyRunsFailExactly` | csapp-master/ecf/procmask1.c:17-52 | in every run of the racy program, at every point with no handler at work between fork and block, each child's events are in order if and only if no handler was ever entered there; from the end of the addjob to the next fork, a reaped child has been listed if and only if one was; and as long as none was, the job list is right at every fork reached with no handler active |
| `JobControl.StepKeepsRace` | csapp-master/ecf/procmask1.c:17-52 | once the handler has been entered in the window, events are out of order, or the deletion of the child not yet added is on its way |
| `JobControl.ReapedBeforeAdded` | csapp-master/ecf/procmask1.c:44-47 | a run of the racy program in which the child is deleted before it is added |
| `JobControl.RacyRun` | csapp-master/ecf/procmask1.c:43-50 | a run of the racy program that ends with a reaped child in the job list and no child left |
| `JobControl.NeverStuck` | csapp-master/ecf/procmask2.c:16-55 | main, the handler or a child it waits for can always go on |
| `JobControl.Process.AdvanceMain` | csapp-master/ecf/procmask2.c:44-53 | the assignments perform exactly one step of main |
| `JobControl.Process.AdvanceHandler` | csapp-master/ecf/procmask2.c:16-31 | the assignments perform exactly one step of the handler |
| `Suspend.RunsLoseNoWakeUp` | csapp-master/ecf/sigsuspend.c:26-41 | in every run, while main waits with `pid` 0 the child is alive, or has ended with SIGCHLD pending, or is with the handler; the loop ends only after this iteration's child was reaped; the handler always finds a child; something other than an interrupt can always go on |
| `Suspend.RunsRestoreMasks` | csapp-master/ecf/sigsuspend.c:17-43 | in every run, under any nesting of handlers, exactly the signals of the initial mask and those that main and the running handlers block are blocked; `sigsuspend` waits with the initial mask, and every iteration ends with it |
| `Suspend.Iteration` | csapp-master/ecf/sigsuspend.c:26-41 | an undisturbed iteration forks a child, sleeps, is woken, reaps it, and is back at its beginning with the same mask and `pid` the child |
| `Suspend.ManyIterations` | csapp-master/ecf/sigsuspend.c:26-41 | this can be repeated any number of times |
| `Suspend.IterationEnds` | csapp-master/ecf/sigsuspend.c:33-37 | an iteration disturbed by k interrupts is over within a fixed bound plus 5k steps |
| `Suspend.StepLowersRank` | csapp-master/ecf/sigsuspend.c:26-41 | every step but an interrupt brings the end of the iteration nearer |
| `Suspend.NeverStuck` | csapp-master/ecf/sigsuspend.c:6-43 | the program can always go on without an interrupt |
| `Suspend.Process.AdvanceMain` | csapp-master/ecf/sigsuspend.c:26-41 | the assignments perform exactly one step of main |
| `Suspend.Process.AdvanceHandler` | csapp-master/ecf/sigsuspend.c:6-15 | the assignments perform exactly one step of the handler on top |
| `Strings.LengthIsKept` | csapp-master/opt/dictionary.c:29-47 | converting characters never moves the end of the string |
| `Strings.Lower1` | csapp-master/opt/dictionary.c:29-36 | the string is in lower case afterwards, although its length is recomputed while it changes |
| `Strings.Lower2` | csapp-master/opt/dictionary.c:39-47 | the same, with the length computed once |
| `Strings.LowerTwice` | csapp-master/opt/dictionary.c:29-47 | converting twice is converting once, and no NUL appears or disappears |
| `Strings.ModIsDivisionHashing` | csapp-master/opt/dictionary.c:118-125 | reducing at every character gives the remainder of the whole string read in base 128, for 7-bit characters and every table size up to 2^25, where no step can pass 32 bits |
| `Strings.AddIsSum` | csapp-master/opt/dictionary.c:127-134 | h_add gives the sum of all characters modulo 2^32 |
| `Strings.XorMixRotates` | csapp-master/opt/dictionary.c:137-145 | for characters below 2^28 as unsigned words a step of h_xor is a rotation by 4 bits, which loses none |
| `Strings.XorIsTurnedSum` | csapp-master/opt/dictionary.c:137-145 | for every string h_xor gives the exclusive or of its shifted characters, each rotated by four bits for every character after it |
| `Strings.HashMeans` | csapp-master/opt/dictionary.c:118-145 | what each of the three functions computes from the characters, by name |
| `Strings.ComputeHash` | csapp-master/opt/dictionary.c:118-145 | each of the three functions returns its value for the string, below `tsize` |
| `WordTable.AddKeepsTable` | csapp-master/opt/dictionary.c:183-228 | for any hash below the table size and either place for new words, an insertion keeps: each word in one entry of its own bucket with its number of occurrences, `ucnt` the number of distinct words, frequencies adding up to the insertions, `mcnt` the greatest frequency above 1 and `mstring` the word that came to it first, `llen` the greatest length, `lstring` the first word that has it and `lcnt` how many do |
| `WordTable.AddWordPlaces` | csapp-master/opt/dictionary.c:183-228 | a new word takes the first or the last place of its bucket and moves no other |
| `WordTable.OneEntryEach` | csapp-master/opt/dictionary.c:183-228 | each word has exactly one entry in the whole table, in bucket hash(word), with its exact count |
| `WordTable.EmptyTableOk` | csapp-master/opt/dictionary.c:82-90 | an empty table counts no words |
| `HashTable.Dictionary.NewEle` | csapp-master/opt/dictionary.c:92-110 | the new record, and the statistics of longest words |
| `HashTable.Dictionary.FindEleIterF` | csapp-master/opt/dictionary.c:183-201 | the chain counts the word once more, with the nodes it had, or has one new node in front of them; it stays a chain without repeated nodes |
| `HashTable.Dictionary.FindEleIterR` | csapp-master/opt/dictionary.c:204-228 | the same with the new node after them |
| `HashTable.Dictionary.InsertString` | csapp-master/opt/dictionary.c:281-289 | the linked table and the counters change exactly as one insertion of the lower-cased word says, and all other buckets stay |
| `FrequencyOrder.InsertKeepsOrder` | csapp-master/opt/dictionary.c:263-265 | inserting past the lower frequencies keeps the order by falling frequency, stable among equal ones |
| `FrequencyOrder.OrderHasAll` | csapp-master/opt/dictionary.c:257-268 | the order leaves no node out |
| `WordSort.InsertSorted` | csapp-master/opt/dictionary.c:263-265 | the shifting loop over the array inserts one node in order |
| `WordSort.SortWords` | csapp-master/opt/dictionary.c:248-278 | the result is a chain that ends and visits every node of the table exactly once, by falling frequency and in bucket order among equals; it is an out-of-bounds access instead if and only if the table is empty; `scnt` is the number of nodes with frequency 1 |
| `Ngrams.Tokenizer.GetWord` | csapp-master/opt/dictionary.c:306-324 | the next word of the document, counted in `wcnt`, or none |
| `Ngrams.Tokenizer.GetToken` | csapp-master/opt/dictionary.c:329-378 | for 1 <= ngram <= 10 the k-th call returns a text in which words k to k+n-1 stand in order, each at the place given by the lengths of those before it, with one space between them and nothing else, through every wrap of the ring; and none once the windows are used up, ever after |
| `Ngrams.Tokenizer.Collect` | csapp-master/opt/dictionary.c:357-373 | reading the ring from `bindex - ngram` gives the text of the last n words in order |
| `Ngrams.JoinIsInjective` | csapp-master/opt/dictionary.c:361-373 | for words without spaces different n-grams have different texts |
| `Ngrams.SpellsOnly` | csapp-master/opt/dictionary.c:361-373 | there is only one text in which given words stand in this way |
| `Ngrams.WindowsSpell` | csapp-master/opt/dictionary.c:329-378 | the k-th n-gram is the text of the words from k on, and there is one for every position at which n words begin |
| `WordFreq.CountOneIsRight` | csapp-master/opt/dictionary.c:393-395 | one turn of the loop keeps the table right, for each of the hash functions |
| `WordFreq.CountNgrams` | csapp-master/opt/dictionary.c:383-395 | after the loop the table counts the lower-cased n-grams of the document, and is empty if and only if there are fewer than n words; `wcnt` is the number of words, and the number of n-grams exactly if n is 1 or there are no words |
| `WordReport.PermutedLists` | csapp-master/opt/dictionary.c:248-278 | reordering a list of counted words keeps each word in it once with its count |
| `WordReport.Report` | csapp-master/opt/dictionary.c:396-398 | the call of `sort_words`: the list has each distinct word once with its count, the most frequent first, and `scnt` is the number of words that occur once; it leaves the array if and only if no words were counted |
| `WordReport.PrintFirst` | csapp-master/opt/dictionary.c:399-402 | the printing loop prints the first `verbose` entries of the list in order, or all if there are fewer |
| `WordReport.PrintList` | csapp-master/opt/dictionary.c:396-402 | both together |
| `WordReport.CountAndReport` | csapp-master/opt/dictionary.c:383-405 | from any document to the printed lines, for every n-gram size, table size, hash function, lower-case function, way of finding and verbosity: the first `verbose` n-grams by falling frequency with their counts, or an overrun if and only if a listing is asked for and there are fewer than n words |
| `Vectors.Vec.constructor` | csapp-master/opt/vec.c:6-29 | a new vector has the given length and zeroed elements |
| `Vectors.Vec.Get` | csapp-master/opt/vec.c:42-48 | in bounds, and only then, the element is delivered |
| `Vectors.Vec.Set` | csapp-master/opt/vec.c:70-76 | in bounds, and only then, one element changes |
| `Vectors.Vec.SetLength` | csapp-master/opt/vec.c:80-88 | growing past the allocation gives a zeroed vector, any other length keeps the data |
| `Vectors.Vec.ShrinkAndRestore` | csapp-master/opt/vec.c:80-88 | shrinking and growing back restores the vector |
| `Combine.Combine1` | csapp-master/opt/combine.c:9-21 | the bounds-checked loop stores the left fold |
| `Combine.Combine` | csapp-master/opt/combine.c:133-2002 | the three loops and the final combination compute the value of the plan |
| `Combine.LeftNestedIsFold` | csapp-master/opt/combine.c:133-562 | unrolling one accumulator left to right by any factor gives the left fold for every operator, whatever its laws |
| `Combine.EvalIsFold` | csapp-master/opt/combine.c:1275-1534 | associativity turns every parenthesization into the left-nested one |
| `Combine.ReassociatedIsFold` | csapp-master/opt/combine.c:1275-1534 | one accumulator with any parenthesization of its steps gives the left fold for every associative operator |
| `Combine.FairIsFold` | csapp-master/opt/combine.c:568-1270 | any plan that uses each element and each accumulator once gives the left fold for every commutative monoid, for every length and number of elements before alignment |
| `Combiners.ReassociatedAgrees` | csapp-master/opt/combine.c:1275-1534 | combine7 and the unroll*aa functions agree with combine1 for every associative operator |
| `Combiners.MultiAgrees` | csapp-master/opt/combine.c:568-1270 | every multi-accumulator function agrees with combine1 for every commutative monoid, also those that update out of order (12, 16 and 20 way) and unroll8x4 |
| `Combiners.SimdAgrees` | csapp-master/opt/combine.c:1553-2002 | every SIMD function agrees with combine1 for every commutative monoid, vector width and starting alignment |
| `Combiners.SplitHalves` | csapp-master/opt/combine.c:1102-1145 | the loop over two halves stores the combination of their folds |
| `Combiners.SplitHalvesAgrees` | csapp-master/opt/combine.c:1102-1145 | that is the left fold for every associative operator with a left identity |
| `WrittenLoops.TableDescribes` | csapp-master/opt/combine.c:9-2002 | for each of 63 functions, the family the table gives has the stride, the accumulators, the assignments in order, the accumulator for the remaining elements and the final expression of the function's loop |
| `WrittenLoops.NamedAgrees` | csapp-master/opt/combine.c:9-2002 | each of the 63 loops stores what combine1 stores, for every vector, vector width and alignment, under the laws read off the loop |
| `WrittenLoops.NamedExactly` | csapp-master/opt/combine.c:9-2002 | and for every operator with an identity it does so for every vector if and only if these laws hold |
| `CombineLaws.SeveralExactly` | csapp-master/opt/combine.c:568-1270 | for every operator with an identity, any fair plan with more than one accumulator agrees with combine1 if and only if OP associates and commutes |
| `CombineLaws.AssociativityExactly` | csapp-master/opt/combine.c:1275-1534 | for every operator with an identity, any single-accumulator plan that combines elements of a step with each other agrees with combine1 if and only if OP associates |
| `CombineLaws.MultiExactly` | csapp-master/opt/combine.c:568-1097 | the multi-accumulator functions agree with combine1 if and only if OP associates and commutes |
| `CombineLaws.SimdExactly` | csapp-master/opt/combine.c:1553-1877 | the same for the SIMD functions, for every shape and number of elements before alignment |
| `CombineLaws.SimdReassociatedExactly` | csapp-master/opt/combine.c:1881-2002 | the same for the SIMD functions with one accumulator |
| `CombineLaws.Combine7Exactly` | csapp-master/opt/combine.c:1275-1295 | with an identity on the left only, combine7 agrees with combine1 if and only if OP associates |
| `CombineLaws.Combine6Exactly` | csapp-master/opt/combine.c:568-588 | with an identity on the left only, combine6 agrees with combine1 if and only if OP associates and commutes |
| `CombineLaws.SplitHalvesExactly` | csapp-master/opt/combine.c:1102-1145 | with an identity on the left only, the two halves agree with combine1 if and only if OP associates |
| `CombineLaws.Combine7OnTwo` | csapp-master/opt/combine.c:1275-1295 | on two elements, for any operator at all, combine7 agrees with combine1 if and only if OP associates on IDENT and the two |
| `Division.DivisionExactly` | csapp-master/opt/combine.h:41-44 | with OP defined as division, over the reals, exactly the loops that take the elements one at a time into one accumulator agree with combine1 |
| `Division.FamilyTurnsOver` | csapp-master/opt/combine.c:568-2002 | whenever IDENT is an identity on the right, every other function has a vector on which it turns an element over twice and combine1 once |
| `Division.SplitHalvesDoNotDivide` | csapp-master/opt/combine.c:1102-1145 | with division the two halves of 1, 2 give 2 where combine1 gives 1/2 |
| `CombineLaws.Combine6NeedsCommutativity` | csapp-master/opt/combine.c:568-588 | a witness: over concatenation, which does not commute, combine6 stores its three elements in another order |
| `SimdForm.SimdV1` | csapp-master/opt/combine.c:1553-1591 | as written, with its `int` count: stores the value of its entry in the table for as many elements as the count says, all of them if the length fits in an `int`, and leaves the vector if and only if the count is negative or beyond it |
| `CombineForms.Combine4` | csapp-master/opt/combine.c:80-91 | as written, stores the value of its entry in the table, which is the left fold |
| `CombineForms.Combine5` | csapp-master/opt/combine.c:133-153 | the same, without any law |
| `CombineForms.Combine6` | csapp-master/opt/combine.c:568-588 | as written, stores the value of its entry in the table |
| `CombineForms.Combine7` | csapp-master/opt/combine.c:1275-1295 | as written, stores the value of its entry in the table |
| `IntegerBuilds.WrappedLaws` | csapp-master/opt/combine.h:17-50 | addition and multiplication modulo any m associate and commute |
| `IntegerBuilds.CharBuildsAgree` | csapp-master/opt/combine.h:17-50 | with char elements every function of `combine.c` stores what combine1 stores, which is the true sum, and the true product, modulo 2^8 |
| `IntegerBuilds.IntBuildsAgree` | csapp-master/opt/combine.h:17-50 | the same with int elements, modulo 2^32 |
| `IntegerBuilds.LongBuildsAgree` | csapp-master/opt/combine.h:22-50 | the same with long elements, modulo 2^64 |
| `Rio.ReadN` | playground/csapp.c:529-547 | for every schedule of short counts and interruptions the first min(n, what is left) bytes arrive |
| `Rio.WriteN` | playground/csapp.c:555-572 | everything is written in order, or an error is reported and only a prefix is |
| `Rio.RioBuf.Read` | playground/csapp.c:585-610 | bytes move from the front of the unread stream to the user; window and file together stay the stream |
| `Rio.RioBuf.ReadNB` | playground/csapp.c:629-649 | returns min(n, bytes left) for every schedule |
| `Rio.RioBuf.ReadLineB` | playground/csapp.c:655-675 | stores the line and NUL and returns its length, plus one if it does not end in a newline; 0 and nothing stored at the end of the stream; `maxlen` 0 and 1 give the empty line |
| `Rio.LineLengthIsShortest` | playground/csapp.c:660-672 | the line is the shortest prefix that ends in a newline, cut at maxlen - 1 or the end |
| `Rio.LineLengthIsUnique` | playground/csapp.c:660-672 | and there is only one such prefix |
| `Rio.LineEnds` | playground/csapp.c:660-674 | each way the loop ends leaves exactly the line of the stream and the value returned for it |
| `Rio.DeliveriesAreTheStream` | playground/csapp.c:629-675 | what any series of calls delivers, and what is left, is the stream |
| `Rio.Session` | playground/csapp.c:617-675 | any mix of the two calls delivers what it would deliver from the plain byte stream, whatever the schedule and the size of the buffer |
| `ClientPool.Pool.constructor` | csapp-master/conc/echoservers.c:57-69 | only the listening descriptor is in the read set |
| `ClientPool.Pool.AddClient` | csapp-master/conc/echoservers.c:73-96 | the lowest empty slot takes the descriptor and the pool stays consistent; it fails if and only if no slot is empty |
| `ClientPool.Pool.CheckClients` | csapp-master/conc/echoservers.c:100-132 | each ready client is served exactly once, in slot order, the ended ones leave, and `nready` ends at 0 |
| `ClientPool.Pool.Round` | csapp-master/conc/echoservers.c:38-52 | a round of the main loop, with a truthful `select` and a fresh descriptor, serves every ready client once and ends with `nready` 0 |
| `ClientPool.ReadyIsClients` | csapp-master/conc/echoservers.c:41-51 | of the descriptors reported ready all but the listening one are clients in slots, and `nready` counts them |
| `ClientPool.ServeTurn` | csapp-master/conc/echoservers.c:106-131 | a turn of the loop over any slot keeps the account of the ready clients still ahead, those served, those gone and `nready` |
| `ClientPool.TallyStep` | csapp-master/conc/echoservers.c:112-130 | serving one client keeps the account of who was served, who is still ahead and who has left |
| `ClientPool.NoneLeft` | csapp-master/conc/echoservers.c:106 | when the loop ends on either condition no ready client is left |
| `Bubble.SwapRemovesOne` | csapp-master/opt/bubble.c:38-43 | a swap of neighbours out of order removes exactly one inversion |
| `Bubble.SortedIsUnique` | csapp-master/opt/bubble.c:8-29 | two sorted arrangements of the same elements are equal |
| `Bubble.Bubble1` | csapp-master/opt/bubble.c:8-18 | leaves a sorted permutation |
| `Bubble.Bubble2` | csapp-master/opt/bubble.c:20-29 | leaves a sorted permutation |
| `Bubble.BubbleCount` | csapp-master/opt/bubble.c:31-48 | the swaps are the inversions of the original array and the comparisons n(n-1)/2 |
| `Bubble.BothFormsAgree` | csapp-master/opt/bubble.c:8-29 | both forms leave the same array |
| `Sampler.KBestIsSmallest` | csapp-master/src/fcyc.c:53-74 | the k best are sorted, together with the others they are all the samples, and none of the others is smaller |
| `Sampler.OneMoreSample` | csapp-master/src/fcyc.c:56-73 | what one more sample does to the k best |
| `Sampler.Samples.AddSample` | csapp-master/src/fcyc.c:53-74 | the array holds the k best of all samples |
| `Sampler.Samples.HasConverged` | csapp-master/src/fcyc.c:77-82 | true if and only if there are k samples and the k smallest agree within the tolerance |
| `Sampler.ConvergedExactly` | csapp-master/src/fcyc.c:77-82 | that is, if and only if no two of the k smallest samples differ by more than the factor |
| `Sampler.FirstIsMinimum` | csapp-master/src/fcyc.c:145 | the first of the sorted samples is the minimum |
| `Sampler.Fcyc` | csapp-master/src/fcyc.c:110-151 | the loop stops at the first timing after which it is done and returns the minimum of the positive timings it took |
| `GraphConvert.OneIteration` | csapp-master/mem/optlab.c:18 | an iteration that reads an overwritten element computes what it would have computed from the original |
| `GraphConvert.ColConvert` | csapp-master/mem/optlab.c:13-19 | for every dimension and every index k, the element becomes 1 if it or the element with row k % dim and column k / dim was not 0, and 0 otherwise |
| `GraphConvert.JoinedIsSymmetric` | csapp-master/mem/optlab.c:13-19 | the result is symmetric, and converting again changes nothing |
| `GraphConvert.Transpose` | csapp-master/mem/optlab.c:2-9 | every index k receives the element with row k % dim and column k / dim |

## Left out

- Wrap-around of `front`, `rear`, frequencies and counters after 2^31 operations: they are mathematical integers.
- Starvation and fairness of the readers/writers solutions: the order in which waiting threads wake up is not specified.
- Thread creation and joining, `Sleep`, printing and memory exhaustion.
- `psum-mutex` with a thread count of 0, where `main` divides by zero, or above `MAXTHREADS`, where it leaves its arrays.
- Signals other than SIGCHLD and SIGINT, beyond their being blocked, and what the child processes do.
- `find_ele_rec`, which relies on `next` being NULL in a node whose `next` was never set.
- The `qsort` path of `sort_words`, and splitting a file into words with `fgets` and `strtok`.
- The sizes of `token_buf` and `sbuf` in `get_token`: n-grams longer than their buffers.
- Floating-point rounding in the combining functions, under which the operators do not associate; the division build is over the reals.
- `Combine.Combine`: takes the length of the vector as it is; the truncation to `int` in the SIMD functions is modelled for simd_v1 only, in `SimdForm.SimdV1`. The other SIMD functions treat the count in the same way.
- What simd_v1 reads or stores once it has left the vector: `SimdForm.SimdV1` says only when it does.
- The loops of the combining functions other than combine1, combine4 to combine7, simd_v1 and the halves as programs: they are listed in `WrittenLoops.Written`, and `Combine.Combine` executes their plans.
- The copies of `combine.c` (`dpb*.c`, `fpb*.c`, `ipb*.c`, `lpb*.c`) and `opt/merge.c`.
- The echoed bytes and `byte_cnt` in `check_clients`, which works on a by-value copy of the client's buffer; the model has which clients are served and which are closed.
- Descriptors at or above `FD_SETSIZE`, for which the descriptor sets have no bit.
- System-call wrappers, sockets, name lookup, the shell, and the small data and assembly examples.
- `Sampler.Samples.AddSample`: timings are reals, so rounding and NaN are not in the model.
- `HashTable.Dictionary.InsertString`: freeing and failing allocation are not in the model.
