# Scheduling and governance in the kitex client

Kitex is an RPC framework. This project models the parts of its client that decide where a call
goes, how often it is tried, how long it may take and how much is let through, and proves what
they promise for every input and every interleaving. `dafny verify dfyconfig.toml` checks it all.

| component | modules | main results |
|---|---|---|
| smooth weighted round robin | `SmoothWrr`, `WrrCache`, `WrrPicker` | exact cycles, fairness of every prefix and window, minimal cycle length; the lazily filled shared table answers as the endless schedule does |
| interleaved weighted round robin | `InterleavedWrr`, `InterleavedPicker` | the nodes stay partitioned over two linked queues, exact cycles, counts within one of each other |
| alias method | `AliasMethod`, `AliasPicker` | the table conserves probability mass; the draws for which Next returns an instance have exactly its share of the total length |
| picker choice | `WeightedBalancer`, `BalancedShortcut` | the shortcut to plain round robin is taken exactly for equal weights; exactly when it changes nothing but the start |
| consistent hashing | `RingKeys`, `HashRing`, `RingBuilder`, `RingShares` | key injectivity through a reused buffer, exactly when the ring is built, each instance's exact share of the ring, ring lookup, and exactly when removing an instance moves only its own keys |
| retry engines | `RetryMachine`, `RetryOutcome`, `RetryCollapse`, `RetryBudget` | exactly which result is returned and how many calls are made; bounds, progress and termination of the mixed and backup loops; mixed collapses to backup retry, and to failure retry exactly when no call panics; the retry budget |
| timeout worker pool | `TimeoutPool`, `TimeoutContexts` | every task run once, objects recycled only when unused, bounded workers, right answers, no task stranded |
| rate limiter | `QpsLimiter` | the exact worst case of grants under interleaved atomics |
| span allocator | `SpanAllocator` | disjoint slices under contention, for exactly the spans whose 32-bit size is at most 2^31 |

Code that updates fields or arrays in place is written as classes and methods and proved against
functions on values; the theorems are about those functions. Concurrent code is a step machine
whose steps are the source's atomic operations, locked sections, channel operations and calls;
theorems quantify over all runs. `Arith`, `Sums`, `Gcd` and `Discovery` hold what several
components share.

Where the code and what is said about it differ, the model follows the code:

- A comment in the smooth picker says its iterator starts from 0. The counter is incremented
  before it is read, so the first ticket is 1 (`WrrCache.FirstTicketIsOne`).
- The comment on span classes gives [2^c, 2^(c+1)); the code's class c holds [2^(c-1), 2^c)
  (`SpanAllocator.ClassHolds`).
- The comment on RunTask says the context's error is always `Canceled` afterwards. It is when the
  answer is nil; otherwise the context is cancelled with whichever reason came first
  (`TimeoutPool.WaitAnswers`).
- A ring whose instances have no virtual nodes is looked up out of range (`HashRing.EmptyRing`,
  `HashRing.Next`).
- `span.Make` converts its argument to 32 bits first (`SpanAllocator.LengthKept`).

Some things that might be expected hold only under a condition, which is exact:

- Over all hashes without collisions between instances, removing an instance from the ring moves
  only its own keys exactly when the width of the key buffer stays the same or at most one other
  instance has virtual nodes (`RingBuilder.MinimalDisruption`).
- Building the ring yields all virtual nodes exactly when no instance has a negative number of them,
  which a negative weight causes (`RingBuilder.BuildVirtualNodes`).
- Mixed retry without ticks makes failure retry's calls and returns its error exactly when no call
  before the last one panics, and also treats the caller's response alike exactly when none panics
  at all (`RetryCollapse.CollapsesToFailure`): failure retry ends at a panic, mixed retry may retry it
  (`RetryCollapse.PanicIsRetried`).
- For equal weights a window of plain round robin's calls is answered as the weighted picker with
  some offset answers it, exactly when no 64-bit ticket wraps inside the window or the number of
  instances divides 2^64; the smooth picker's own counter may also wrap together with the plain one
  (`BalancedShortcut.InterleavedShortcut`, `BalancedShortcut.SmoothShortcut`).
- Every interleaving on a span is safe exactly when the size after conversion to 32 bits is at most
  2^31 (`SpanAllocator.SafeExactly`).

## Model

| member | source | states |
|---|---|---|
| Gcd.GcdInt | pkg/loadbalance/weighted_round_robin.go:160-165 | the loop computes `Euclid`, which `EuclidDivides` and `EuclidGreatest` characterise |
| Gcd.EuclidDivides | pkg/loadbalance/weighted_round_robin.go:160-165 | the result divides both arguments and is positive unless both are zero |
| Gcd.EuclidGreatest | pkg/loadbalance/weighted_round_robin.go:160-165 | every common divisor divides the result, even after scaling both arguments |
| Gcd.GcdOfDivides | pkg/loadbalance/weighted_round_robin.go:49-53 | the divisor folded over all weights divides every weight |
| Gcd.GcdOfGreatest | pkg/loadbalance/weighted_round_robin.go:49-53 | whatever divides every weight divides the folded divisor |
| SmoothWrr.Conservation | pkg/loadbalance/weighted_round_robin.go:116-132 | after k picks a node's current weight is k times its weight minus the total weight per pick it got |
| SmoothWrr.StepKeepsBalance | pkg/loadbalance/weighted_round_robin.go:116-132 | a pick keeps the current weights summing to zero and each above minus the total weight |
| SmoothWrr.StateBalanced | pkg/loadbalance/weighted_round_robin.go:116-132 | the balance holds after any number of picks from all-zero |
| SmoothWrr.NeverAPickAhead | pkg/loadbalance/weighted_round_robin.go:116-132 | after any k picks no node is a whole pick ahead of its share |
| SmoothWrr.NeverFarBehind | pkg/loadbalance/weighted_round_robin.go:116-132 | with n >= 2 nodes none is ever n-1 picks behind its share |
| SmoothWrr.FullCycle | pkg/loadbalance/weighted_round_robin.go:60-62 | total/gcd picks select node i exactly weight/gcd times and return every current weight to zero |
| SmoothWrr.StateRepeats | pkg/loadbalance/weighted_round_robin.go:60-62 | the schedule repeats after one cycle |
| SmoothWrr.PickRepeats | pkg/loadbalance/weighted_round_robin.go:82-82 | the pick of a ticket is the pick of its remainder by the table's length |
| SmoothWrr.WindowFair | pkg/loadbalance/weighted_round_robin.go:60-62 | every window of one cycle length is exactly fair, wherever it starts |
| SmoothWrr.CycleIsMinimal | pkg/loadbalance/weighted_round_robin.go:60-62 | all current weights are zero again exactly after multiples of the cycle, so no shorter table would do |
| SmoothWrr.EqualWeightsCycle | pkg/loadbalance/weighted_round_robin.go:60-62 | for equal weights the table has one entry per node |
| SmoothWrr.EqualWeightsCyclic | pkg/loadbalance/weighted_round_robin.go:116-132 | for equal weights the k-th pick is node k mod n |
| WrrCache.BuildFaithful | pkg/loadbalance/weighted_round_robin.go:106-114 | filling keeps the table equal to a prefix of the endless schedule, never shortens it, and reaches a target within the table |
| WrrCache.FillAnswers | pkg/loadbalance/weighted_round_robin.go:97-103 | the slow path's target always covers the missing entry, so the entry is filled |
| WrrCache.TableAnswers | pkg/loadbalance/weighted_round_robin.go:82-89 | a filled entry at the ticket's index is the ticket's pick of the endless schedule |
| WrrCache.StepKeepsInv | pkg/loadbalance/weighted_round_robin.go:80-104 | taking a ticket, the read-locked lookup and the write-locked fill keep table, tickets and answers right |
| WrrCache.RunInv | pkg/loadbalance/weighted_round_robin.go:80-104 | the invariant holds in every state of every interleaving |
| WrrCache.CacheRefinesSchedule | pkg/loadbalance/weighted_round_robin.go:80-104 | whatever the interleaving, the caller with ticket t gets the t-th pick of the endless schedule and never nil |
| WrrCache.TicketsFair | pkg/loadbalance/weighted_round_robin.go:80-104 | until the counter wraps, of any `vcapacity` consecutive tickets exactly weight/gcd pick a given node; their callers, and no others of the window, are served it, distinct and once each |
| WrrCache.FirstTicketIsOne | pkg/loadbalance/iterator.go:32-34 | the first caller is given ticket 1 |
| WrrPicker.Round.Next | pkg/loadbalance/iterator.go:32-34 | the 64-bit counter is incremented modulo 2^64 and then returned |
| WrrPicker.BumpAll | pkg/loadbalance/weighted_round_robin.go:117-126 | the loop bumps every node and finds the first largest one and the total weight |
| WrrPicker.NextWrrNode | pkg/loadbalance/weighted_round_robin.go:116-132 | the in-place selection is one step of the schedule and returns its pick, or nil for no nodes |
| WrrPicker.NewNodes | pkg/loadbalance/weighted_round_robin.go:44-60 | the constructor's loop makes the rotated nodes, all at zero, and the cycle length |
| WrrPicker.WeightedRoundRobinPicker.constructor | pkg/loadbalance/weighted_round_robin.go:40-64 | the new picker is the initial state of the shared table: rotated nodes, one batch filled, no ticket taken |
| WrrPicker.WeightedRoundRobinPicker.FillNext | pkg/loadbalance/weighted_round_robin.go:111-111 | one round of the filling loop is one entry of `WrrCache.Build` |
| WrrPicker.WeightedRoundRobinPicker.BuildVirtualWrrNodes | pkg/loadbalance/weighted_round_robin.go:106-114 | the in-place loop is `WrrCache.Build` |
| WrrPicker.WeightedRoundRobinPicker.FastPath | pkg/loadbalance/weighted_round_robin.go:84-86 | the lookup finds nothing beyond the filled size, and below it the pick of the endless schedule with that number |
| WrrPicker.WeightedRoundRobinPicker.SlowPath | pkg/loadbalance/weighted_round_robin.go:92-103 | fills the table unless the entry is there, and always finds it |
| WrrPicker.WeightedRoundRobinPicker.Next | pkg/loadbalance/weighted_round_robin.go:80-104 | an uninterrupted call returns its ticket's pick of the endless schedule |
| WrrPicker.RoundRobinPicker.constructor | pkg/loadbalance/weighted_round_robin.go:141-148 | plain round robin starts at a given ticket |
| WrrPicker.RoundRobinPicker.Next | pkg/loadbalance/weighted_round_robin.go:151-158 | returns the instance at ticket mod n, or nil without using a ticket when there are none |
| InterleavedWrr.StepKeepsValid | pkg/loadbalance/interleaved_weighted_round_robin.go:71-90 | every call keeps the nodes partitioned over the two queues, with positive multiples of the divisor left |
| InterleavedWrr.SwappedValid | pkg/loadbalance/interleaved_weighted_round_robin.go:75-79 | after the swap the current queue is never empty, so dequeue is safe |
| InterleavedWrr.CycleAccount | pkg/loadbalance/interleaved_weighted_round_robin.go:71-90 | at every point of a cycle what is left is the total minus the divisor per call, node by node |
| InterleavedWrr.CycleExact | pkg/loadbalance/interleaved_weighted_round_robin.go:71-90 | from any cycle boundary total/gcd calls serve node i exactly weight/gcd times and end at a boundary |
| InterleavedWrr.ManyCycles | pkg/loadbalance/interleaved_weighted_round_robin.go:71-90 | m cycles serve every node m times its share |
| InterleavedWrr.Interleaved | pkg/loadbalance/interleaved_weighted_round_robin.go:79-87 | at any point of a cycle two nodes both still in the current queue have counts at most one apart |
| InterleavedWrr.StartBoundary | pkg/loadbalance/interleaved_weighted_round_robin.go:48-69 | the constructor's state is a cycle boundary |
| InterleavedWrr.EqualWeightsRun | pkg/loadbalance/interleaved_weighted_round_robin.go:71-90 | with equal weights every call moves the head to the other queue |
| InterleavedPicker.IwrrQueue.Enqueue | pkg/loadbalance/interleaved_weighted_round_robin.go:96-105 | the linked queue stays well formed and gains the node at its tail |
| InterleavedPicker.IwrrQueue.Dequeue | pkg/loadbalance/interleaved_weighted_round_robin.go:107-116 | the linked queue stays well formed and loses its head, which is unlinked |
| InterleavedPicker.IwrrQueue.Empty | pkg/loadbalance/interleaved_weighted_round_robin.go:118-120 | true exactly for the queue without nodes |
| InterleavedPicker.NewQueue | pkg/loadbalance/interleaved_weighted_round_robin.go:53-66 | the constructor's loop queues the rotated instances with full remainders and computes the divisor |
| InterleavedPicker.InterleavedWeightedRoundRobinPicker.constructor | pkg/loadbalance/interleaved_weighted_round_robin.go:48-69 | the new picker is the schedule's start |
| InterleavedPicker.InterleavedWeightedRoundRobinPicker.Next | pkg/loadbalance/interleaved_weighted_round_robin.go:71-90 | the linked queues move exactly as the schedule's and the served node is returned |
| InterleavedPicker.InterleavedWeightedRoundRobinPicker.ServeHead | pkg/loadbalance/interleaved_weighted_round_robin.go:79-89 | the head is charged, put behind the right queue and returned |
| InterleavedPicker.InterleavedWeightedRoundRobinPicker.TakeHead | pkg/loadbalance/interleaved_weighted_round_robin.go:79-80 | the head leaves the current queue and is charged the divisor, nothing else changes |
| InterleavedPicker.InterleavedWeightedRoundRobinPicker.Requeue | pkg/loadbalance/interleaved_weighted_round_robin.go:82-87 | the node goes behind one queue with its new remainder, the other queue is untouched |
| AliasMethod.PairKeepsValid | pkg/loadbalance/weighted_random_with_alias_method.go:64-79 | a round of pairing keeps every instance's mass, the levels of the two stacks, and the cancelling excess |
| AliasMethod.SmallRunsOut | pkg/loadbalance/weighted_random_with_alias_method.go:87-91 | when the large stack is empty so is the small one: the leftover-small loop has nothing to do |
| AliasMethod.LargeAtOne | pkg/loadbalance/weighted_random_with_alias_method.go:81-85 | every index left on the large stack is exactly at one |
| AliasMethod.FinishConserves | pkg/loadbalance/weighted_random_with_alias_method.go:81-91 | the finished table has probabilities in [0,1] and gives every instance its target mass |
| AliasMethod.InitialExcess | pkg/loadbalance/weighted_random_with_alias_method.go:55-62 | the scaled weights n*w/W average to one |
| AliasPicker.BeginValid | pkg/loadbalance/weighted_random_with_alias_method.go:51-62 | the sorted stacks before pairing satisfy the invariant |
| AliasPicker.GiftIsLength | pkg/loadbalance/weighted_random_with_alias_method.go:95-101 | for every index and instance the draws of [0,1) that lead from one to the other are two intervals whose lengths add up to `Gift` |
| AliasPicker.LengthUnique | pkg/loadbalance/weighted_random_with_alias_method.go:95-101 | that length does not depend on how the draws are written as intervals |
| AliasPicker.ChanceIsShare | pkg/loadbalance/weighted_random_with_alias_method.go:95-101 | with a conserving table the lengths of the draws for which Next returns instance i, averaged over the indices, are w_i/W and nothing else |
| AliasPicker.AliasMethodPicker.constructor | pkg/loadbalance/weighted_random_with_alias_method.go:34-41 | the new picker holds a conserving table |
| AliasPicker.AliasMethodPicker.Init | pkg/loadbalance/weighted_random_with_alias_method.go:44-92 | the loops on arrays and stacks build a conserving table |
| AliasPicker.AliasMethodPicker.Scale | pkg/loadbalance/weighted_random_with_alias_method.go:55-62 | the first loop computes n*w/W and sorts the indices onto the stacks |
| AliasPicker.AliasMethodPicker.PairUp | pkg/loadbalance/weighted_random_with_alias_method.go:64-79 | the pairing loop ends with one stack empty and the invariant kept |
| AliasPicker.AliasMethodPicker.FillOnes | pkg/loadbalance/weighted_random_with_alias_method.go:81-91 | each index of the stack is set to one and no other changes |
| AliasPicker.AliasMethodPicker.Next | pkg/loadbalance/weighted_random_with_alias_method.go:95-101 | returns the instance the two draws lead to, always in range |
| WeightedBalancer.KeptPositive | pkg/loadbalance/weighted_balancer.go:93-106 | the kept instances are exactly those of positive weight, with their multiplicities |
| WeightedBalancer.EqualWeightsPush | pkg/loadbalance/weighted_balancer.go:101-103 | comparing with the instance kept before is enough to know that all weights are equal |
| WeightedBalancer.CreatePicker | pkg/loadbalance/weighted_balancer.go:88-138 | dummy for no kept instance, the plain picker exactly when all kept weights are equal, else the weighted one of its kind with the right weight sum |
| BalancedShortcut.SmoothAnswer | pkg/loadbalance/weighted_round_robin.go:80-104 | for equal weights the smooth picker answers its k-th ticket, taken modulo 2^64, in cyclic order from its offset |
| BalancedShortcut.PlainAnswer | pkg/loadbalance/weighted_round_robin.go:151-158 | plain round robin's counter, incremented, gives the index of its next call |
| BalancedShortcut.SmoothShortcut | pkg/loadbalance/weighted_balancer.go:112-117 | some offset makes the smooth picker answer a window of calls as plain round robin does, if and only if neither 64-bit counter wraps inside it, or both start at zero, or n divides 2^64 |
| BalancedShortcut.InterleavedCyclic | pkg/loadbalance/interleaved_weighted_round_robin.go:71-90 | for equal weights the k-th interleaved call serves node k mod n |
| BalancedShortcut.InterleavedAnswer | pkg/loadbalance/interleaved_weighted_round_robin.go:71-90 | for equal weights the interleaved picker answers its k-th call in cyclic order from its offset |
| BalancedShortcut.InterleavedShortcut | pkg/loadbalance/weighted_balancer.go:118-123 | some offset makes the interleaved picker answer a window of calls as plain round robin does, if and only if plain round robin's 64-bit ticket does not wrap inside it or n divides 2^64 |
| BalancedShortcut.PlainRepeats | pkg/loadbalance/weighted_round_robin.go:151-158 | at the wrap plain round robin over three instances returns the same one twice in a row |
| RingKeys.GetUIntLen | pkg/utils/int_len.go:20-27 | the loop counts the decimal digits |
| RingKeys.UIntLenFits | pkg/utils/int_len.go:20-27 | that many digits hold the whole number |
| RingKeys.UIntLenNeeded | pkg/utils/int_len.go:20-27 | one digit fewer does not |
| RingKeys.SerialFits | pkg/loadbalance/consist.go:302-302 | a serial up to the largest fits in every field as wide as the largest |
| RingKeys.KeysInjective | pkg/loadbalance/consist.go:309-331 | equal keys come from equal addresses and equal serials, for any addresses whatever |
| RingKeys.WriteAddress | pkg/loadbalance/consist.go:309-317 | the reused buffer becomes the address's key for serial 0, whatever it held |
| RingKeys.WriteSerial | pkg/loadbalance/consist.go:321-328 | the digit loop turns the key of an earlier serial into the key of this one, leaving no earlier byte |
| HashRing.SerialsFit | pkg/loadbalance/consist.go:293-302 | every serial of every node fits behind its '#', so digits never overwrite it |
| HashRing.BuildKeysInjective | pkg/loadbalance/consist.go:293-335 | within one build distinct (address, serial) pairs are hashed from distinct keys |
| HashRing.VirtualNodesSound | pkg/loadbalance/consist.go:308-335 | every virtual node is a serial of a real node with the hash of that serial's key |
| HashRing.VirtualNodesComplete | pkg/loadbalance/consist.go:308-335 | every serial of every real node has its virtual node |
| HashRing.BuildConsistResult | pkg/loadbalance/consist.go:183-193 | the search returns the owner of the smallest hash strictly above the key, else of the smallest hash overall; it is out of range exactly on an empty ring |
| HashRing.Next | pkg/loadbalance/consist.go:153-162 | nil exactly for no instances or an empty key, out of range exactly on a ring without virtual nodes, else the key's owner |
| HashRing.EmptyRing | pkg/loadbalance/consist.go:284-292 | the ring is empty exactly when no instance has a virtual node |
| HashRing.OwnerHashUnique | pkg/loadbalance/consist.go:183-193 | ring and key determine the owner's hash |
| HashRing.RemainingRing | pkg/loadbalance/consist.go:283-338 | at unchanged width the ring without an instance keeps exactly the others' virtual nodes |
| HashRing.OnlyItsKeysMove | pkg/loadbalance/consist.go:183-193 | if removing an instance leaves the width unchanged and no hash is shared across instances, only its own keys move |
| RingBuilder.Sort | pkg/loadbalance/consist.go:336-336 | the result ascends by hash and is a permutation |
| RingBuilder.KeyWidth | pkg/loadbalance/consist.go:293-302 | the loop computes the width from the longest address and the largest serial |
| RingBuilder.FillSerials | pkg/loadbalance/consist.go:309-334 | each hash is of that serial's own key, whatever the buffer held before, at its index of the preallocated result; it fails exactly when an index is out of range |
| RingBuilder.FillNodes | pkg/loadbalance/consist.go:306-335 | without negative lengths the preallocated result ends up with all virtual nodes in order |
| RingBuilder.SumLens | pkg/loadbalance/consist.go:284-287 | the loop adds up the lengths, negative ones included |
| RingBuilder.TotalIsCount | pkg/loadbalance/consist.go:284-289 | the preallocated length is the number of virtual nodes if and only if no length is negative, and is smaller otherwise |
| RingBuilder.TotalByOption | pkg/loadbalance/consist.go:284-289 | the lengths add up to the factor times the number of instances, or times the sum of weights when weights count |
| RingBuilder.BuildVirtualNodes | pkg/loadbalance/consist.go:283-338 | the result is the ring of these nodes, all their virtual nodes ascending by hash, if and only if no length is negative; it has factor times the number of instances, or times the sum of weights, entries |
| RingShares.EntriesOnRing | pkg/loadbalance/consist.go:342-347 | each instance has exactly factor entries on the ring, or weight*factor when weights count |
| RingShares.WidthExact | pkg/loadbalance/consist.go:293-302 | the width is exactly that of the longest address, a '#' and the digits of the largest number of virtual nodes |
| RingBuilder.OtherKeysMove | pkg/loadbalance/consist.go:302-302 | if the width changes and two other instances have virtual nodes, some collision-free hash moves a key between the two |
| RingBuilder.LoneInstanceKeepsKeys | pkg/loadbalance/consist.go:183-193 | with at most one other instance on the ring its keys stay, even if the width changes |
| RingBuilder.MinimalDisruption | pkg/loadbalance/consist.go:283-338 | over all collision-free hashes, removing an instance moves only its own keys if and only if the width is unchanged or at most one other instance has virtual nodes |
| RetryMachine.StepKeepsInv | pkg/retry/mixed_retryer.go:112-182 | every step of either engine keeps the accounts of calls, channel, timer and results |
| RetryMachine.RunInv | pkg/retry/mixed_retryer.go:112-182 | the invariant holds in every state of every run |
| RetryMachine.CallsAndWakesBounded | pkg/retry/mixed_retryer.go:99-181 | launched calls never exceed retryTimes+1 and the select wakes at most 2*(retryTimes+1) times |
| RetryMachine.SendersNeverBlock | pkg/retry/mixed_retryer.go:98-135 | a goroutine with a result finds room in the channel, even after Do has returned |
| RetryMachine.SelectWillWake | pkg/retry/backup_retryer.go:114-158 | the select is never entered with no result there and no call outstanding |
| RetryMachine.FirstGoodResultReturned | pkg/retry/mixed_retryer.go:156-180 | every result taken before the returned one was retryable, and the response is written once, from the returned result |
| RetryOutcome.MixedReturnsExactly | pkg/retry/mixed_retryer.go:156-180 | a result taken is returned if and only if it needs no retry, is the last of all calls' results, or its retry was possible and refused |
| RetryOutcome.MixedWaitsForTheRest | pkg/retry/mixed_retryer.go:156-180 | in every state a result that needs no retry has been returned at once, and a retryable one only when all results are in or a call was left to make |
| RetryOutcome.BackupReturnsFirst | pkg/retry/backup_retryer.go:152-157 | the first result taken is returned, whatever it is, and no other is taken |
| RetryOutcome.GivesUpExactly | pkg/retry/mixed_retryer.go:115-119 | the loop gives up on the duration if and only if it is mixed and about to launch a call after the first |
| RetryOutcome.ResultsInOrder | pkg/retry/mixed_retryer.go:130-135 | what has been taken followed by what waits in the channel is what the calls have sent, in order |
| RetryOutcome.CallsAreGranted | pkg/retry/mixed_retryer.go:112-168 | launched calls, with the one about to be launched or given up on, are one plus the ticks and retryable results that were allowed another call with room for it |
| RetryOutcome.GrantLaunches | pkg/retry/backup_retryer.go:147-151 | a grant makes the next launch possible and sets the timer again |
| RetryOutcome.CallsAttained | pkg/retry/backup_retryer.go:114-151 | for every n up to retryTimes+1 some run of either engine makes n calls, on ticks alone |
| RetryOutcome.NoCallAfterReturn | pkg/retry/backup_retryer.go:118-121 | a call whose goroutine has not begun when Do returns a result is never made |
| RetryMachine.BudgetFalls | pkg/retry/backup_retryer.go:114-158 | every step lowers the number of steps left |
| RetryMachine.RunsFinite | pkg/retry/mixed_retryer.go:112-182 | no run has more than 6*(retryTimes+1)+2 steps |
| RetryMachine.NeverStuck | pkg/retry/mixed_retryer.go:112-182 | until Do returns there is a step to take that does not wait for the timer |
| RetryCollapse.CollapsesToBackup | pkg/retry/mixed_retryer.go:112-182 | if no result is retryable and no maximum duration is exceeded, the mixed runs are exactly the backup runs |
| RetryCollapse.FailureDo | pkg/retry/failure_retryer.go:91-140 | the loop's calls, RPC info, error and written response are those of the first call after which it does not go on; a panicking call ends it with the panic's error, no RPC info and the response untouched |
| RetryCollapse.SequentialStep | pkg/retry/mixed_retryer.go:112-182 | without ticks a mixed step stays where the failure loop would be |
| RetryCollapse.SequentialRun | pkg/retry/mixed_retryer.go:112-182 | the mixed loop without ticks makes one call at a time, in every state of every run |
| RetryCollapse.FirstPanicEnds | pkg/retry/failure_retryer.go:91-95 | the failure loop stops at the mixed loop's last call if and only if no earlier call panicked, else at the first panic |
| RetryCollapse.CollapsesToFailure | pkg/retry/mixed_retryer.go:112-182 | without ticks and maximum duration a mixed run that returns has the failure retryer's calls, RPC info and error if and only if no call before the last panicked, and also its effect on the response if and only if none panicked |
| RetryCollapse.PanicIsRetried | pkg/retry/mixed_retryer.go:130-135 | a panicking, retryable first call: one call and the panic's error for failure retry, two calls and no error for mixed retry |
| RetryCollapse.SequentialProgress | pkg/retry/mixed_retryer.go:112-182 | without ticks a step is possible exactly until Do has returned |
| RetryCollapse.SequentialRunsReturn | pkg/retry/mixed_retryer.go:112-182 | without ticks a run has at most 4*(retryTimes+1) steps and can stop only by returning |
| RetryBudget.GateExactly | pkg/retry/util.go:98-104 | the gate stops a retry if and only if there are ten samples and the retries have reached the rate's part of them |
| RetryBudget.CheckKeepsBudget | pkg/retry/util.go:94-105 | a retry that the gate lets through stays within the budget |
| RetryBudget.StepKeepsInv | pkg/retry/failure_retryer.go:99-133 | first calls, gate checks, recorded retries and leaving keep the budget |
| RetryBudget.RetriesWithinBudget | pkg/retry/failure_retryer.go:99-133 | with K interleaved callers recorded retries are at most 9 or fewer than rate*samples+K, and no caller makes more than retryTimes+1 calls |
| RetryBudget.NineAttained | pkg/retry/util.go:101-103 | the 9 is exact: one caller reaches it at every rate |
| RetryBudget.PanelCounts | pkg/retry/percentage_limit.go:25-31 | the panel counts every first call as one success and every retry as one failure |
| TimeoutPool.StepKeepsTasks | client/rpctimeout_pool.go:137-274 | every step of submitters, runners and waiters keeps each task, object and runner consistent |
| TimeoutPool.StepKeepsPool | client/rpctimeout_pool.go:97-124 | the size always counts the live workers and the submitters about to lower it again |
| TimeoutPool.RunInv | client/rpctimeout_pool.go:97-274 | both invariants hold in every state of every interleaving |
| TimeoutPool.RunExactlyOnce | client/rpctimeout_pool.go:97-229 | a task's endpoint is called at most once and exactly once by its recycling, and only its own runner ever has its object |
| TimeoutPool.RecycledOnlyWhenUnused | client/rpctimeout_pool.go:172-229 | an object is in the pool only when no runner has it and every Wait on it has returned; no runner ever meets a cleared object |
| TimeoutPool.WorkersBounded | client/rpctimeout_pool.go:97-124 | live pooled workers never exceed maxIdle-1 |
| TimeoutPool.WorkersAttained | client/rpctimeout_pool.go:97-124 | the bound is exact: some run has maxIdle-1 live workers, and every smaller number |
| TimeoutPool.WaitAnswers | client/rpctimeout_pool.go:204-274 | if only the runner has cancelled the context, Wait returns nil, the endpoint's error or the panic's error according to the outcome and the context is Canceled; otherwise it returns the stored reason |
| TimeoutPool.NilMeansReturnedNil | client/rpctimeout_pool.go:246-251 | nil is returned only if the endpoint returned nil without panicking |
| TimeoutPool.StopAnswers | client/rpctimeout_pool.go:238-258 | a Wait whose deadline passes returns DeadlineExceeded and one whose parent is done the parent's error, unless the runner had cancelled before: then Canceled |
| TimeoutPool.OutcomeIsTheEndpoints | client/rpctimeout_pool.go:218-229 | what the endpoint answers is the outcome of the task its runner holds, from then on |
| TimeoutPool.DeadlineAsSubmitted | client/rpctimeout_pool.go:172-179 | a task has a deadline exactly if it was submitted with one |
| TimeoutPool.FirstReasonStored | client/rpctimeout_pool.go:310-327 | the stored reason is the first one given and the done channel is closed once, with it |
| TimeoutPool.ReasonNeverChanges | client/rpctimeout_pool.go:320-327 | a stored reason never changes in the rest of the run |
| TimeoutPool.StepLowersLeft | client/rpctimeout_pool.go:137-274 | each step of a task brings it nearer its end and nobody else's step moves it away |
| TimeoutPool.TaskStepsBounded | client/rpctimeout_pool.go:137-274 | a task takes at most eleven steps from submission to recycling, however the others interleave |
| TimeoutPool.NeverStranded | client/rpctimeout_pool.go:137-274 | until it is recycled one of a task's own steps is possible, so recycle never waits for a Wait that cannot finish |
| TimeoutContexts.TimeoutContext.constructor | client/rpctimeout_pool.go:286-287 | a new context has no reason and an open channel |
| TimeoutContexts.TimeoutContext.Cancel | client/rpctimeout_pool.go:320-327 | a nil reason changes nothing, any other is the pool's cancel step and never closes a closed channel |
| TimeoutContexts.TimeoutContext.GetErr | client/rpctimeout_pool.go:310-318 | the first reason ever given, or the parent's error before any |
| QpsLimiter.CalcOnce | pkg/limiter/qps_limiter.go:137-146 | the refill is between 0 and the limit, and 0 for a negative limit |
| QpsLimiter.RefillsPerSecond | pkg/limiter/qps_limiter.go:137-146 | ticks that fit in a second refill at most the limit together, each loses less than one token to rounding, and a tick of a second or more refills the whole limit |
| QpsLimiter.StepKeepsInv | pkg/limiter/qps_limiter.go:72-80 | every atomic step keeps the tokens within the limit and the grants within the account |
| QpsLimiter.GrantsBounded | pkg/limiter/qps_limiter.go:72-135 | under any interleaving with k refills tokens stay within the limit and at most once+(2*once-1)*k acquires are granted |
| QpsLimiter.BoundAttained | pkg/limiter/qps_limiter.go:72-135 | for every configuration and k some interleaving grants exactly that many |
| QpsLimiter.RefillEffect | pkg/limiter/qps_limiter.go:118-135 | an uninterrupted refill of a limiter at or below its limit leaves max(once, min(limit, tokens + once)) |
| QpsLimiter.FillsUp | pkg/limiter/qps_limiter.go:118-135 | k refills of an empty limiter that nobody draws on leave min(limit, k*once) |
| QpsLimiter.AtomicGrantsBounded | pkg/limiter/qps_limiter.go:72-135 | with atomic refills at most once*(k+1) acquires are granted |
| QpsLimiter.Limiter.constructor | pkg/limiter/qps_limiter.go:38-48 | a new limiter starts with one refill of tokens |
| QpsLimiter.Limiter.Acquire | pkg/limiter/qps_limiter.go:72-80 | grants always without a limit, else exactly while tokens are left, at one token each |
| QpsLimiter.Limiter.UpdateToken | pkg/limiter/qps_limiter.go:118-135 | one refill is the four ticker steps in a row: max(once, min(limit, tokens + once)), and nothing above the limit |
| SpanAllocator.StepKeepsInv | pkg/mem/span.go:88-106 | every atomic step of Make keeps lock, slices and abandoned tails consistent |
| SpanAllocator.RunInv | pkg/mem/span.go:88-106 | the invariant holds in every state of every interleaving, for spans whose 32-bit size is at most 2^31 |
| SpanAllocator.SlicesDisjoint | pkg/mem/span.go:88-106 | any two slices handed out are disjoint up to their capacities |
| SpanAllocator.CallsServed | pkg/mem/span.go:88-106 | no call panics, length and capacity are as requested, START is passed at most twice, abandoned tails are smaller than the request |
| SpanAllocator.NothingSkipped | pkg/mem/span.go:94-105 | every byte of the current buffer before the read index has been handed out, so nothing but tails is lost |
| SpanAllocator.NeverWaits | pkg/mem/span.go:88-106 | a call that has not returned or panicked can always take its next step |
| SpanAllocator.LargerSpansWrap | pkg/mem/span.go:95-98 | for every argument whose 32-bit size is above 2^31, two requests in a row wrap the index and the second panics on its slice bounds |
| SpanAllocator.SafeExactly | pkg/mem/span.go:72-106 | over every argument of NewSpan: all interleavings serve every call, disjointly and without a panic, if and only if the 32-bit size is at most 2^31 |
| SpanAllocator.LengthKept | pkg/mem/span.go:89-89 | the argument survives the conversion exactly when it is between 0 and 2^32-1 |
| SpanAllocator.Span.constructor | pkg/mem/span.go:72-77 | a new span has a buffer of the whole argument, the low 32 bits of it as size, and reads from zero |
| SpanAllocator.Span.Make | pkg/mem/span.go:88-106 | native allocation from the span's size on or when the lock is taken, the next slice if it fits, a fresh buffer after one restart if not, and a panic that keeps the lock exactly when the 32-bit index wraps |
| SpanAllocator.BitLenAbove | pkg/mem/span.go:117-122 | the bit length of a size is above k exactly when the size is at least 2^k |
| SpanAllocator.ClassHolds | pkg/mem/span.go:117-122 | class c holds exactly the sizes from 2^(c-1) to 2^c - 1, and class 0 only zero |
| SpanAllocator.CacheRange | pkg/mem/span.go:56-62 | the cache uses a span exactly for 128 to 131071 bytes |

## Left out

- AliasPicker.AliasMethodPicker.Init: exact reals instead of float64, so rounding in the table is not captured.
- AliasPicker.AliasMethodPicker.Next: its two random draws are parameters.
- QpsLimiter.CalcOnce: exact division instead of float64, and no conversion of limit and tokens to 32 bits.
- QpsLimiter.GrantsBounded: for a positive limit that is not updated; UpdateLimit, UpdateQPSLimit, Status and the ticker's goroutine are not part of this model.
- Gcd.GcdInt: natural numbers only, as createPicker drops instances without a positive weight before a weighted picker is made.
- Overflow of int in weight sums, call counters and the pool's size is not captured.
- WrrCache.TicketsFair: only before the 64-bit counter wraps; CacheRefinesSchedule holds across the wrap.
- WrrPicker.WeightedRoundRobinPicker.BuildVirtualWrrNodes: for targets not below the filled size, which is all that the constructor and Next pass.
- WrrPicker.WeightedRoundRobinPicker.constructor: for the non-empty lists of positive weights that createPicker passes; the random offset is a parameter.
- InterleavedPicker.InterleavedWeightedRoundRobinPicker.constructor: likewise.
- AliasPicker.AliasMethodPicker.constructor: for the same lists and their weight sum, as createPicker passes them.
- InterleavedPicker.InterleavedWeightedRoundRobinPicker.Next: its mutex makes calls atomic, so it has no step machine.
- WeightedBalancer.CreatePicker: returns which picker is made with which instances; the picker cache, its single flight, and the uniform and weighted random pickers are not part of this model.
- HashRing.OnlyItsKeysMove: for distinct addresses, as two instances with one address share all their hashes.
- HashRing.RemainingRing: for distinct addresses.
- RingBuilder.MinimalDisruption: for distinct addresses.
- RingBuilder.BuildVirtualNodes: the hash is any function of the bytes, and what a ring with negative lengths looks like, when it does not fail, is only said to be too short.
- RingBuilder.Sort: only order and permutation are specified, as sort.Sort leaves the order of equal hashes open.
- HashRing.Next: the request key's hash is a parameter; replicas, the ring cache and its race between Delete and Rebalance are not part of this model.
- RetryMachine.StepKeepsInv: backoff, timers and clocks are free choices of the next step; ShouldRetry, isRetryResult and isExceedMaxDuration are oracles; error texts, costs, recycleRI and panics outside the call itself are left out.
- RetryCollapse.CollapsesToFailure: without a maximum duration, since the two loops report exceeding it differently.
- RetryCollapse.CollapsesToBackup: without a maximum duration, which the backup retryer does not have.
- RetryBudget.RetriesWithinBudget: the circuit-breaker panel is a pair of plain counters without a sliding window, and reading it is one step.
- TimeoutPool.StopAnswers: a parent context that is done has a non-nil error; the done signal, deadlines and idle times are free choices of the next step.
- TimeoutPool.RunInv: the endpoint's call and return are one step, and a worker's exit and its decrement of the size are one step; the idle ticker and its no-op tasks, profiler tags and the response value are left out.
- TimeoutPool.NeverStranded: for an endpoint whose call returns or panics.
- TimeoutContexts.TimeoutContext.GetErr: before a reason is stored it follows the parent and may change.
- SpanAllocator.Span.Make: one call at a time, with the lock free or taken; contention is in the step machine. The bytes of the buffers are not modelled.
- SpanAllocator.Span.constructor: the allocator called for the buffer is not part of this model, so neither is its answer to a negative size.
- Generic codecs, IDL parsing, transports, service discovery, options and client or server wiring: no property of the same depth.
