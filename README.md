# jtoolkit core in Dafny

This project models three components of the `jtoolkit` Java library and proves properties of
the models.

- **`CentralExecutor`**: a thread-pool front end that splits a fixed number of threads among
  task classes by quota. Each registered class has a *reserve* quota and an *elastic* quota.
  Two policies decide admission:
  - **PESSIMISM** admits a task only on its class's reserve. It rejects unregistered classes.
  - **OPTIMISM** tries the reserve first. It then tries the elastic quota, but only while some
    thread is unreserved. Unregistered classes go to the wait queue.

  A task that is not admitted waits in a priority queue. When an admitted task finishes, its
  wrapper (`Decorator.run`) releases the task's quota slot and sends the head of the queue
  through `execute` again.
- **`Guards`**: fluent argument checks.
  - `get(v).orDefault(d)` and `get(v).orComplain(msg)` handle a possibly-null value.
  - `check(n)` builds a range check. It takes at most one lower bound and one upper bound, and
    `orComplain()` verifies them in insertion order.
- **`IDPoolBaseOnFile`**: an allocator of the ids `0 .. capacity-1`. It keeps one bit per id
  in a byte buffer and counts the ids in use in `inUsed`.

## How the model is organised

| file | module | what it holds |
|---|---|---|
| `exceptions.dfy` | `Exceptions` | `Option`, `Result`, `Outcome` and the exceptions the source throws (`IllegalArgument`, `IllegalState`, `RejectedExecution`) |
| `decimal.dfy` | `Decimal` | Java's decimal rendering of an `int`, used in the error messages and in `Operation.toString` |
| `quota.dfy` | `Quotas` | class `Quota` (`value`, mutable `state`) with `acquire`/`release`, and the factories |
| `admission.dfy` | `Admission` | the executor as a pure state machine (`Sched`), its invariant, and the properties of both policies |
| `central_executor.dfy` | `Central` | class `CentralExecutor`; every method is proved to move its abstract state exactly as the matching `Admission` transition does |
| `executor_scenarios.dfy` | `ExecutorScenarios` | complete runs of the class: the unit-test shapes and the behaviours described below |
| `guards.dfy` | `Guards` | `ObjectGet` as a value, `Operation`, and class `NumberCheck` over a mutable list of operations |
| `id_pool.dfy` | `IdPool` | Java `/` and `%`, the bit helpers, the bitset as a value (`SetBit`, `CountSet`, `ClearBelow`), and class `IdPoolBaseOnFile` over an `array<bv8>` |

**Free quota slots are derived, not stored.** The abstract state does not store a quota's free
slots. It records:
- the running tasks, each with the quota it holds;
- the wait queue, as a multiset of (task, key);
- `leaked`, the elastic slots that were acquired but never used.

The free slots of a quota `q` are `q.value - HeldBy(running, q) - leaked[q]` (`Remaining`).
`CentralExecutor.Valid()` requires every registered `Quota` object's `state` to equal that
number, so the conservation law is part of the class invariant.

**Behaviours of the code that its comments do not describe:**
- **The queue hands out the smallest key.** `compareTo` is `quota - o.quota`, and
  `PriorityBlockingQueue` takes the least element. So:
  - under PESSIMISM, classes with *smaller* reserves leave the queue first;
  - under OPTIMISM, unregistered tasks (key -1) leave before quota-bearing ones (key 0).

  Both follow from the comparator alone (`UnregisteredDrainFirst`, `CompareToOrdersKeys`).
- **An unregistered task can block the OPTIMISM queue.** When a completion takes an
  unregistered task from the head, `execute` puts it straight back with key -1. Nothing is
  admitted and the queue is unchanged. While such a task waits, no quota-bearing task ever
  leaves the queue (`QueueStuckBehindUnregistered`, `UnregisteredBlocksQueue`).
- **OPTIMISM loses elastic slots.** `elastic.acquire() && executor.hasUnreserved()` takes an
  elastic slot even when no thread is unreserved. The task is then queued, and the slot is
  never given back (`ElasticSlotLeaks`, `LeaksAreNeverReturned`, `ElasticSlotLost`).
- **OPTIMISM may admit more tasks than the pool has threads.** `hasUnreserved()` compares
  registrations, not running tasks (`OptimismOverAdmits`).
- **PESSIMISM hands at most `reserved` tasks to the pool at any time**, and `reserved` is at
  most the pool size (`PessimismBound`).
- **Registration order.** `quota(...)` adds the reserve to the `reserved` tally before the
  PESSIMISM zero-reserve check throws. The tally is changed by 0 in that case, so nothing
  visible changes.
- **Rejections the older tests expect but the code does not make.** The tests under `src/test`
  expect `quota(...)` to refuse a reserve larger than its limit and a zero limit
  (`CentralExecutorTest.java:61-64` and `:71-74` there). The code has no limit and makes
  neither check, so the model does not either.

## Model

In the source column, `CentralExecutor.java`, `IDPoolBaseOnFile.java` and their tests live
under `src/` or `common/src/`, and the guards under `guards/src/`.

| member | source | states |
|---|---|---|
| Quotas.Quota.constructor | src/main/java/com/github/zhongl/jtoolkit/CentralExecutor.java:98-102 | a new quota has `state == value` |
| Quotas.Quota.Acquire | src/main/java/com/github/zhongl/jtoolkit/CentralExecutor.java:112-117 | succeeds iff a slot is free, and then takes exactly one; `0 <= state <= value` is kept |
| Quotas.Quota.Release | src/main/java/com/github/zhongl/jtoolkit/CentralExecutor.java:124-129 | succeeds iff a slot is taken, and then frees exactly one; a release on a full quota changes nothing |
| Quotas.NewQuota | src/main/java/com/github/zhongl/jtoolkit/CentralExecutor.java:98-102 | `reserve(v)`/`elastic(v)` fail with IllegalArgumentException("Quota should not less than 0.") iff `v < 0`; otherwise a fresh quota with all `v` slots free |
| Quotas.Nil | src/main/java/com/github/zhongl/jtoolkit/CentralExecutor.java:71 | `nil()` is a fresh quota with no slots |
| Admission.InitialInv | src/main/java/com/github/zhongl/jtoolkit/CentralExecutor.java:31-36 | a new executor satisfies the invariant: bookkeeping, conservation and the policy's shape |
| Admission.Register | src/main/java/com/github/zhongl/jtoolkit/CentralExecutor.java:81-89 | `quota(...)` as a transition; it never changes the policy, the pool size, the running tasks, the queue or the lost slots (its outcomes are in `RegisterOutcome`) |
| Admission.RegisterOutcome | src/main/java/com/github/zhongl/jtoolkit/CentralExecutor.java:81-89 | "No resource for reserve" iff the reserve exceeds the unreserved threads, and then the state is unchanged; otherwise the tally grows by the reserve; success iff additionally not (PESSIMISM and reserve 0), and a zero reserve under PESSIMISM is refused with "None reserve" and the state unchanged; only success binds the class; nothing is run or queued |
| Admission.RegisterKeepsInv | src/main/java/com/github/zhongl/jtoolkit/CentralExecutor.java:81-89 | registering fresh, distinct quotas keeps the invariant, including conservation of every quota |
| Admission.ReservedWithinThreads | src/main/java/com/github/zhongl/jtoolkit/CentralExecutor.java:83-86 | after `quota(...)`, `0 <= reserved <= threadSize` and the tally never shrinks |
| Admission.ReserveWithinPool | src/main/java/com/github/zhongl/jtoolkit/CentralExecutor.java:84-85 | every registered reserve lies between 0 and the pool size |
| Admission.UntouchedQuotaIsFree | src/main/java/com/github/zhongl/jtoolkit/CentralExecutor.java:98-102 | a quota no running task holds and no submission lost has all its slots free |
| Admission.Execute | src/main/java/com/github/zhongl/jtoolkit/CentralExecutor.java:137-186 | `execute(task)` through the registered submitter or the policy's default one; a submission never changes the registrations, the tally or the bound quotas |
| Admission.ExecuteAccountsForTask | src/main/java/com/github/zhongl/jtoolkit/CentralExecutor.java:58-62 | `execute` fails iff the policy is PESSIMISM and the class is unregistered, and then changes nothing; otherwise exactly this task is appended to the running tasks or added to the queue, and nothing else is (never dropped); no lost slot is recovered |
| Admission.ExecuteKeepsInv | src/main/java/com/github/zhongl/jtoolkit/CentralExecutor.java:137-186 | every submission under either policy, registered or not, keeps the invariant |
| Admission.RemainingAfterAdmit | src/main/java/com/github/zhongl/jtoolkit/CentralExecutor.java:211-213 | admitting a task takes one slot of its quota and of no other quota |
| Admission.AdmitKeepsInv | src/main/java/com/github/zhongl/jtoolkit/CentralExecutor.java:211-213 | admitting on a registered quota with a free slot keeps the invariant |
| Admission.RemainingAfterLoss | src/main/java/com/github/zhongl/jtoolkit/CentralExecutor.java:153 | losing slots takes them from their own quotas and from no other |
| Admission.EnqueueKeepsInv | src/main/java/com/github/zhongl/jtoolkit/CentralExecutor.java:195-198 | queueing with a key the policy allows keeps the invariant, including when an elastic slot is lost |
| Admission.DequeueKeepsInv | src/main/java/com/github/zhongl/jtoolkit/CentralExecutor.java:200-209 | taking a task out of the queue keeps the invariant |
| Admission.Release | src/main/java/com/github/zhongl/jtoolkit/CentralExecutor.java:248 | the task at i leaves the running tasks: one fewer, the others kept as a multiset, nothing else changed |
| Admission.RemainingAfterRelease | src/main/java/com/github/zhongl/jtoolkit/CentralExecutor.java:248 | a completion gives back one slot of exactly the quota the task was admitted with |
| Admission.ReleaseSucceeds | src/main/java/com/github/zhongl/jtoolkit/CentralExecutor.java:124-129 | the quota of a running task always has a slot to give back, so the wrapper's `release()` never reports an invalid release |
| Admission.ReleaseKeepsInv | src/main/java/com/github/zhongl/jtoolkit/CentralExecutor.java:247-248 | the release half of a completion keeps the invariant |
| Admission.Complete | src/main/java/com/github/zhongl/jtoolkit/CentralExecutor.java:242-251 | release, then re-execute the taken head when there is one; registrations, tally and bound quotas are unchanged |
| Admission.CompleteKeepsInv | src/main/java/com/github/zhongl/jtoolkit/CentralExecutor.java:242-251 | a completion (release, then re-execute of any queued task) keeps the invariant |
| Admission.MinKeyExists | src/main/java/com/github/zhongl/jtoolkit/CentralExecutor.java:189 | a non-empty wait queue has an element with the smallest key |
| Admission.ResubmissionNeverRejected | src/main/java/com/github/zhongl/jtoolkit/CentralExecutor.java:200-209 | under PESSIMISM a task taken from the queue is never rejected when executed again |
| Admission.PessimismBound | src/main/java/com/github/zhongl/jtoolkit/CentralExecutor.java:180-183 | under PESSIMISM the number of running tasks is at most `reserved`, which is at most `threadSize` |
| Admission.ElasticSlotLeaks | src/main/java/com/github/zhongl/jtoolkit/CentralExecutor.java:153 | OPTIMISM, reserve used up, elastic free, every thread reserved: the task is queued with key 0, nothing is admitted, and the elastic quota loses one free slot to `leaked` |
| Admission.LeaksAreNeverReturned | src/main/java/com/github/zhongl/jtoolkit/CentralExecutor.java:247-250 | no completion shrinks the multiset of lost slots |
| Admission.CompareTo | src/main/java/com/github/zhongl/jtoolkit/CentralExecutor.java:226 | `quota - o.quota` as a 32-bit int: always in int range, and equal to the true difference when that fits |
| Admission.CompareToOrdersKeys | src/main/java/com/github/zhongl/jtoolkit/CentralExecutor.java:226 | for keys a queue can hold, `compareTo` is negative iff the first key is smaller and zero iff the keys are equal |
| Admission.UnregisteredDrainFirst | src/main/java/com/github/zhongl/jtoolkit/CentralExecutor.java:141 | under OPTIMISM, while an unregistered task waits, the head of the queue has key -1 |
| Admission.QueueStuckBehindUnregistered | src/main/java/com/github/zhongl/jtoolkit/CentralExecutor.java:141 | under OPTIMISM, a completion that takes an unregistered head only releases: the queue ends as it was |
| Admission.CompletionAdmitsSameClass | src/main/java/com/github/zhongl/jtoolkit/CentralExecutor.java:242-251 | under PESSIMISM, a completion whose slot belongs to the head's class admits the head on that slot at once |
| Central.CentralExecutor.constructor | src/main/java/com/github/zhongl/jtoolkit/CentralExecutor.java:31-36 | a new executor is valid, with nothing registered, running or queued |
| Central.CentralExecutor.RegisterQuota | src/main/java/com/github/zhongl/jtoolkit/CentralExecutor.java:81-89 | `quota(...)` moves the executor exactly as `Register` does, and keeps the class invariant |
| Central.CentralExecutor.HasUnreserved | src/main/java/com/github/zhongl/jtoolkit/CentralExecutor.java:91 | true iff the registered reserves sum to less than the pool size |
| Central.CentralExecutor.Bind | src/main/java/com/github/zhongl/jtoolkit/CentralExecutor.java:85-88 | the successful registration: tally, registry and bound quotas as `Register` prescribes, with every quota's `state` still equal to its free slots |
| Central.CentralExecutor.TryAdmit | src/main/java/com/github/zhongl/jtoolkit/CentralExecutor.java:181 | `acquire()` then `doSubmit`: admitted iff the quota had a free slot; otherwise nothing changes |
| Central.CentralExecutor.Enqueue | src/main/java/com/github/zhongl/jtoolkit/CentralExecutor.java:195-198 | adds exactly one entry to the wait queue and changes nothing else |
| Central.CentralExecutor.SubmitPessimism | src/main/java/com/github/zhongl/jtoolkit/CentralExecutor.java:180-183 | the PESSIMISM submitter acts exactly as `Admission.Execute` |
| Central.CentralExecutor.SubmitOptimism | src/main/java/com/github/zhongl/jtoolkit/CentralExecutor.java:151-155 | the OPTIMISM submitter acts exactly as `Admission.Execute` |
| Central.CentralExecutor.ElasticOrQueue | src/main/java/com/github/zhongl/jtoolkit/CentralExecutor.java:153-154 | three outcomes: admitted on the elastic quota; queued with key 0 after losing the slot; or queued with key 0 without one |
| Central.CentralExecutor.Execute | src/main/java/com/github/zhongl/jtoolkit/CentralExecutor.java:58-62 | `execute(task)` acts exactly as `Admission.Execute`, covering registered submitters and both default submitters |
| Central.CentralExecutor.Take | src/main/java/com/github/zhongl/jtoolkit/CentralExecutor.java:202 | `take()` removes one element with the smallest key |
| Central.CentralExecutor.DequeueTo | src/main/java/com/github/zhongl/jtoolkit/CentralExecutor.java:200-209 | takes a smallest-key task and executes it again; an empty queue changes nothing |
| Central.CentralExecutor.Complete | src/main/java/com/github/zhongl/jtoolkit/CentralExecutor.java:242-251 | the `finally` of `run()`: the release succeeds, and the executor moves exactly as `Admission.Complete` with a smallest-key head |
| ExecutorScenarios.ReserveInPessimismRun | common/src/test/java/com/github/zhongl/jtoolkit/CentralExecutorTest.java:31-51 | PESSIMISM, 2 threads, reserve 1: the first task runs, the second waits with key 1, and it runs once the first completes |
| ExecutorScenarios.ReserveInPessimism | common/src/test/java/com/github/zhongl/jtoolkit/CentralExecutorTest.java:31-51 | the same run performed on the class |
| ExecutorScenarios.ElasticInOptimismSubmissions | common/src/test/java/com/github/zhongl/jtoolkit/CentralExecutorTest.java:54-64 | OPTIMISM, 3 threads, reserve 1, elastic 1: the first two submissions run on reserve and elastic |
| ExecutorScenarios.ElasticInOptimismQueued | common/src/test/java/com/github/zhongl/jtoolkit/CentralExecutorTest.java:64-70 | the third submission waits with key 0 |
| ExecutorScenarios.ElasticInOptimismResumed | common/src/test/java/com/github/zhongl/jtoolkit/CentralExecutorTest.java:72-74 | completing the first task admits the third |
| ExecutorScenarios.ElasticInOptimismRun | common/src/test/java/com/github/zhongl/jtoolkit/CentralExecutorTest.java:54-78 | the whole run on the abstract state |
| ExecutorScenarios.ElasticInOptimism | common/src/test/java/com/github/zhongl/jtoolkit/CentralExecutorTest.java:54-78 | the same run performed on the class |
| ExecutorScenarios.UnquotaedRejectedInPessimism | common/src/test/java/com/github/zhongl/jtoolkit/CentralExecutorTest.java:80-83 | RejectedExecutionException; nothing runs or waits |
| ExecutorScenarios.NoResourceForReserve | common/src/test/java/com/github/zhongl/jtoolkit/CentralExecutorTest.java:85-88 | reserve 3 on 1 thread: IllegalArgumentException, and the tally stays 0 |
| ExecutorScenarios.QuotaShouldNotBeNegative | common/src/test/java/com/github/zhongl/jtoolkit/CentralExecutorTest.java:91-94 | `reserve(-1)`: IllegalArgumentException |
| ExecutorScenarios.NoneReserveInPessimism | common/src/test/java/com/github/zhongl/jtoolkit/CentralExecutorTest.java:96-99 | reserve 0 under PESSIMISM: IllegalArgumentException, and the class is not registered |
| ExecutorScenarios.ElasticSlotLostRun | src/main/java/com/github/zhongl/jtoolkit/CentralExecutor.java:153 | OPTIMISM, 1 thread, reserve 1, elastic 1: the second task is queued with key 0; once the first completes it runs on the reserve, and the elastic quota has no free slot although no task holds it |
| ExecutorScenarios.ElasticSlotLost | src/main/java/com/github/zhongl/jtoolkit/CentralExecutor.java:153 | the same on the class: after the completion only the second task runs, and the elastic quota of value 1 has `state` 0 |
| ExecutorScenarios.OptimismOverAdmitsRun | src/main/java/com/github/zhongl/jtoolkit/CentralExecutor.java:153 | OPTIMISM, 1 thread, no reserve, elastic 2: two tasks are admitted |
| ExecutorScenarios.OptimismOverAdmits | src/main/java/com/github/zhongl/jtoolkit/CentralExecutor.java:153 | the same on the class: more tasks admitted than the pool has threads |
| ExecutorScenarios.UnregisteredBlocksQueueRun | src/main/java/com/github/zhongl/jtoolkit/CentralExecutor.java:141 | OPTIMISM, 1 thread, reserve 1: one task runs, one registered and one unregistered task wait |
| ExecutorScenarios.UnregisteredHeadRequeued | src/main/java/com/github/zhongl/jtoolkit/CentralExecutor.java:200-209 | the completion takes the unregistered task, which goes straight back; nothing runs |
| ExecutorScenarios.UnregisteredBlocksQueue | src/main/java/com/github/zhongl/jtoolkit/CentralExecutor.java:141 | the same on the class: after the completion nothing runs and the queue is unchanged |
| Decimal.NatToStringRoundTrip | src/main/java/com/github/zhongl/jtoolkit/IDPoolBaseOnFile.java:116 | the decimal rendering is a non-empty digit string, without a leading zero, that reads back as the number |
| Decimal.IntToStringInjective | guards/src/main/java/com/github/zhongl/jtoolkit/Guards.java:107 | distinct ints render to distinct strings |
| Guards.ObjectGet.OrDefault | guards/src/main/java/com/github/zhongl/jtoolkit/Guards.java:28-30 | the default when the value is null, otherwise the value |
| Guards.ObjectGet.OrComplain | guards/src/main/java/com/github/zhongl/jtoolkit/Guards.java:32-35 | IllegalArgumentException(message) iff the value is null, otherwise the value |
| Guards.OrComplainAgreesWithOrDefault | guards/src/main/java/com/github/zhongl/jtoolkit/Guards.java:28-35 | the two getters agree on non-null values; `orComplain` throws exactly when the value is null, and then `orDefault` gives the default |
| Guards.Operation.Apply | guards/src/main/java/com/github/zhongl/jtoolkit/Guards.java:112-139 | `base > bound`, `>=`, `<` or `<=` by the operation's kind; `ApplyAtBound` states strictness |
| Guards.Operation.ToString | guards/src/main/java/com/github/zhongl/jtoolkit/Guards.java:107 | the symbol, a space and the bound in decimal; `ToStringIdentifiesOperation` states that it names the operation |
| Guards.ApplyAtBound | guards/src/main/java/com/github/zhongl/jtoolkit/Guards.java:112-139 | `>` and `<` exclude the bound, `>=` and `<=` include it, and `>` is the negation of `<=` |
| Guards.SecondCharacter | guards/src/main/java/com/github/zhongl/jtoolkit/Guards.java:107 | the rendered operation's second character tells a one-character symbol from a two-character one |
| Guards.ToStringIdentifiesOperation | guards/src/main/java/com/github/zhongl/jtoolkit/Guards.java:107 | two operations with the same `toString` are the same operation, so the complaint names the failing operation |
| Guards.WellFormedHasAtMostTwo | guards/src/main/java/com/github/zhongl/jtoolkit/Guards.java:48-70 | a checker with at most one lower and one upper bound holds at most two operations |
| Guards.FirstFailing | guards/src/main/java/com/github/zhongl/jtoolkit/Guards.java:74-76 | none iff every operation holds; otherwise the first failing operation in insertion order |
| Guards.Verdict | guards/src/main/java/com/github/zhongl/jtoolkit/Guards.java:72-77 | passes iff there is an operation and all hold; "No operation" on an empty list; otherwise "Number should " + the first failing operation in insertion order |
| Guards.NumberCheck.constructor | guards/src/main/java/com/github/zhongl/jtoolkit/Guards.java:44-46 | a new checker has no operations |
| Guards.NumberCheck.ComplainIf | guards/src/main/java/com/github/zhongl/jtoolkit/Guards.java:87-93 | IllegalStateException(reason) iff some recorded operation has one of the given kinds |
| Guards.NumberCheck.Add | guards/src/main/java/com/github/zhongl/jtoolkit/Guards.java:48-70 | refused with the reason, list unchanged, iff a bound of that side is already recorded; otherwise appends exactly the operation and returns the same checker |
| Guards.NumberCheck.GreaterThan | guards/src/main/java/com/github/zhongl/jtoolkit/Guards.java:48-52 | "Complicit greater operation" iff a lower bound exists; otherwise appends `> bound` |
| Guards.NumberCheck.GreaterThanOrEqual | guards/src/main/java/com/github/zhongl/jtoolkit/Guards.java:54-58 | "Complicit greater operation" iff a lower bound exists; otherwise appends `>= bound` |
| Guards.NumberCheck.LessThan | guards/src/main/java/com/github/zhongl/jtoolkit/Guards.java:60-64 | "Complicit less operation" iff an upper bound exists; otherwise appends `< bound` |
| Guards.NumberCheck.LessThanOrEqual | guards/src/main/java/com/github/zhongl/jtoolkit/Guards.java:66-70 | "Complicit less operation" iff an upper bound exists; otherwise appends `<= bound` |
| Guards.NumberCheck.OrComplain | guards/src/main/java/com/github/zhongl/jtoolkit/Guards.java:72-77 | the loop's result is `Verdict` of the value and the recorded operations |
| Guards.NotInRange | guards/src/test/java/com/github/zhongl/jtoolkit/GuardsTest.java:100-108 | `check(19).greaterThanOrEqual(1).lessThan(18)` complains "Number should < 18" |
| Guards.UpperBoundNamed | guards/src/test/java/com/github/zhongl/jtoolkit/GuardsTest.java:100-108 | the verdict behind that message |
| Guards.InRange | guards/src/test/java/com/github/zhongl/jtoolkit/GuardsTest.java:110-113 | `check(5).greaterThan(0).lessThanOrEqual(8)` passes |
| Guards.ComplicitLess | guards/src/test/java/com/github/zhongl/jtoolkit/GuardsTest.java:115-123 | a second upper bound is refused with "Complicit less operation" |
| Guards.ComplicitGreater | guards/src/test/java/com/github/zhongl/jtoolkit/GuardsTest.java:125-133 | a second lower bound is refused with "Complicit greater operation" |
| Guards.NoOperation | guards/src/test/java/com/github/zhongl/jtoolkit/GuardsTest.java:135-143 | `check(0).orComplain()` is IllegalStateException("No operation") |
| IdPool.AlignAt8 | src/main/java/com/github/zhongl/jtoolkit/IDPoolBaseOnFile.java:99 | `num / 8 + (num % 8 == 0 ? 0 : 1)` with Java division; for a non-negative count it is the ceiling of num / 8 |
| IdPool.Index | src/main/java/com/github/zhongl/jtoolkit/IDPoolBaseOnFile.java:103 | `index(id)` with Java division; for a non-negative id it is id / 8 |
| IdPool.Bit | src/main/java/com/github/zhongl/jtoolkit/IDPoolBaseOnFile.java:101 | `bit(id)` is `1 << id % 8` as a byte mask; its properties are `BitIsSingle` and `BitsDisjoint` |
| IdPool.IndexInBuffer | src/main/java/com/github/zhongl/jtoolkit/IDPoolBaseOnFile.java:103 | `index(id)` is inside the buffer for every id below capacity |
| IdPool.BitsDisjoint | src/main/java/com/github/zhongl/jtoolkit/IDPoolBaseOnFile.java:101 | masks of different bit positions do not overlap |
| IdPool.BitIsSingle | src/main/java/com/github/zhongl/jtoolkit/IDPoolBaseOnFile.java:101 | each mask has exactly one bit set |
| IdPool.Force | src/main/java/com/github/zhongl/jtoolkit/IDPoolBaseOnFile.java:118 | `o | bit(id)` or `o & ~bit(id)`: id's bit becomes b and the other seven bits of the byte are kept |
| IdPool.SetBit | src/main/java/com/github/zhongl/jtoolkit/IDPoolBaseOnFile.java:117-119 | the buffer after `set(id, b)`: the length and every byte but id's are kept |
| IdPool.ForceChanges | src/main/java/com/github/zhongl/jtoolkit/IDPoolBaseOnFile.java:118-120 | forcing a bit changes the byte iff the bit differed |
| IdPool.SetBitReportsChange | src/main/java/com/github/zhongl/jtoolkit/IDPoolBaseOnFile.java:117-120 | `o != n` iff id's bit differed from b |
| IdPool.SetBitEffect | src/main/java/com/github/zhongl/jtoolkit/IDPoolBaseOnFile.java:115-121 | after `set(id, b)` id's bit is b and every other bit is unchanged |
| IdPool.SetBitIdempotent | src/main/java/com/github/zhongl/jtoolkit/IDPoolBaseOnFile.java:115-121 | setting a bit twice is setting it once, and the second `set` reports no change |
| IdPool.CountSetAfterSetBit | src/main/java/com/github/zhongl/jtoolkit/IDPoolBaseOnFile.java:66 | changing one bit moves the count of set ids by exactly that change |
| IdPool.CountSetBound | src/main/java/com/github/zhongl/jtoolkit/IDPoolBaseOnFile.java:74 | at most n of the first n ids are set |
| IdPool.FreeIdExists | src/main/java/com/github/zhongl/jtoolkit/IDPoolBaseOnFile.java:74-83 | a count below capacity implies a free id below capacity |
| IdPool.AllSetWhenFull | src/main/java/com/github/zhongl/jtoolkit/IDPoolBaseOnFile.java:74 | a count equal to capacity implies no free id |
| IdPool.ClearBelowEffect | src/main/java/com/github/zhongl/jtoolkit/IDPoolBaseOnFile.java:96 | releasing ids `0 .. n-1` clears exactly those bits |
| IdPool.NoneSetCountsZero | src/main/java/com/github/zhongl/jtoolkit/IDPoolBaseOnFile.java:17 | no set id means a count of zero |
| IdPool.ClearBelowCountsZero | src/main/java/com/github/zhongl/jtoolkit/IDPoolBaseOnFile.java:94-97 | after the release loop, no id below capacity is counted |
| IdPool.IdPoolBaseOnFile.constructor | src/main/java/com/github/zhongl/jtoolkit/IDPoolBaseOnFile.java:19-29 | the buffer holds the file's contents and is `max(|file|, alignAt8(capacity))` bytes long: a shorter file is zero-extended to `alignAt8(capacity)` bytes and a longer one is kept whole; `inUsed` is 0 |
| IdPool.IdPoolBaseOnFile.Set | src/main/java/com/github/zhongl/jtoolkit/IDPoolBaseOnFile.java:115-121 | IllegalArgumentException("id : " + id) iff id is out of range, buffer unchanged; otherwise the buffer becomes `SetBit` and the result says whether the bit changed |
| IdPool.IdPoolBaseOnFile.Release | src/main/java/com/github/zhongl/jtoolkit/IDPoolBaseOnFile.java:66 | clears the bit; `inUsed` drops by one exactly when the bit was set; a consistent counter stays consistent |
| IdPool.IdPoolBaseOnFile.AcquireId | src/main/java/com/github/zhongl/jtoolkit/IDPoolBaseOnFile.java:91 | sets the bit; `inUsed` grows by one exactly when the bit was clear; a consistent counter stays consistent |
| IdPool.IdPoolBaseOnFile.Acquire | src/main/java/com/github/zhongl/jtoolkit/IDPoolBaseOnFile.java:73-84 | IllegalStateException iff `inUsed == capacity`; otherwise an id in range whose bit was clear, only that bit set, `inUsed` + 1 |
| IdPool.IdPoolBaseOnFile.Reset | src/main/java/com/github/zhongl/jtoolkit/IDPoolBaseOnFile.java:94-97 | as written: every id below capacity is cleared and `inUsed` ends at minus the previous count |
| IdPool.IdPoolBaseOnFile.ReleaseAll | src/main/java/com/github/zhongl/jtoolkit/IDPoolBaseOnFile.java:96 | the loop clears ids `0 .. capacity-1` and lowers `inUsed` by the number that were set |
| IdPool.IdPoolBaseOnFile.ResetCorrected | src/main/java/com/github/zhongl/jtoolkit/IDPoolBaseOnFile.java:94-97 | with the counter zeroed after the loop, the pool ends empty and consistent |
| IdPool.NewEmptyPool | src/main/java/com/github/zhongl/jtoolkit/IDPoolBaseOnFile.java:19-29 | a pool over an empty file has every id free and a consistent counter |
| IdPool.NoMoreId | src/test/java/com/github/zhongl/jtoolkit/IDPoolBaseOnFileTest.java:20-24 | acquiring every id by number, then `acquire()`, gives IllegalStateException |
| IdPool.AcquireEvery | src/test/java/com/github/zhongl/jtoolkit/IDPoolBaseOnFileTest.java:26-34 | `capacity` calls to `acquire()` on an empty pool return distinct ids in range |
| IdPool.ResetBreaksExhaustionGuard | src/main/java/com/github/zhongl/jtoolkit/IDPoolBaseOnFile.java:94-97 | capacity 1: `acquire(0)`, `reset()`, `acquire()` leaves the one id taken while `inUsed` is 0 |
| IdPool.ResetCorrectedKeepsExhaustionGuard | src/main/java/com/github/zhongl/jtoolkit/IDPoolBaseOnFile.java:94-97 | the same sequence with the corrected reset ends with `acquire()` throwing IllegalStateException |

## Left out

- Thread-pool execution and lifecycle (`shutdown`, `awaitTermination`, ...) are calls into `ExecutorService`. "Admitted" is modelled as appending the task to the running sequence. When the pool actually runs the task is not modelled.
- What a task does when it runs is not modelled. A task that throws is treated like one that returns, because the `finally` block runs in both cases.
- `take()` blocks on an empty queue, and an interrupt ends the wait. The model's `DequeueTo` leaves an empty queue alone instead. In the source, the worker that finished the task stays parked in `take()` and keeps its pool thread. It then picks up the next task enqueued under the same policy, even one from another executor. A task admitted meanwhile may wait in the pool's own queue, which the model does not represent.
- Concurrency is not modelled: compare-and-set races in `Quota`, `synchronized` blocks, `ConcurrentHashMap`, and logging. Each atomic or synchronized step is one sequential transition.
- The source keeps one wait queue per policy enum constant, shared by every executor with that policy. The model gives each executor its own queue.
- Central.CentralExecutor.constructor: requires `0 < threadSize <= MaxInt`. The source's thread-pool factory throws for a non-positive size, and that exception is not modelled.
- Central.CentralExecutor.RegisterQuota: requires the two quotas to be fresh and distinct. In the source they come from `reserve(n)`, `elastic(n)` or `nil()` at the call site. Sharing one `Quota` object between registrations is not modelled.
- Central.CentralExecutor.RegisterQuota: when the same class is registered again, the source overwrites its submitter and keeps the old reserve in the tally. The model does the same, but the old quotas stay in the invariant's pool.
- A task class is modelled as a string naming the Runnable's class.
- `Number.doubleValue()` in `Guards` is not modelled. Numbers are `int`, and `Operation.toString` renders them as Java renders an `int`. A number is never null in the model, so three NullPointerExceptions of the source are not modelled: `check(null)` with operations recorded, `apply` on a null bound, and `get(null).orDefault(null)` handing back null to a caller that dereferences it.
- The memory-mapped file behind `IDPoolBaseOnFile` is not modelled: `RandomAccessFile`, `dispose`, the `main` benchmark and `setFileLength`. The buffer is an array whose initial contents are a constructor parameter.
- `nextId()` draws from `System.nanoTime()`. The model picks any free id below capacity instead, so the retry loop collapses to one choice.
- IdPool.IdPoolBaseOnFile.Acquire: requires that a free id exists whenever `inUsed != capacity`. Without one the source's `for(;;)` loop never ends, which a terminating method cannot express. `ResetBreaksExhaustionGuard` exhibits a state where that happens.
- IdPool.IdPoolBaseOnFile.constructor: requires `capacity >= 0`. The source's behaviour for a negative capacity is not modelled.
- Executor scenario runs use the shapes of the unit tests. Their `sleep` timing is not modelled.
- The remaining files of the repository are not part of this model: file extended attributes, events, race-condition helpers, the system clock, the buffer cleaner and the directory cleaner.

## Findings

| source | as written | input that shows it | evidently intended | confidence | as-written member | corrected member |
|---|---|---|---|---|---|---|
| src/main/java/com/github/zhongl/jtoolkit/IDPoolBaseOnFile.java:94-97 | `reset()` sets `inUsed = 0` and then calls `release(i)` for every id; each release of a set id decrements `inUsed` again, so it ends at minus the number of ids that were in use | capacity 1: `acquire(0)`, `reset()`, `acquire()`. The id is taken again, yet `inUsed` is 0, so the next `acquire()` passes the `inUsed == capacity` guard and retries forever, because no id is free | `inUsed` is 0 after `reset()` and the guard keeps matching the bitset | high (proved on the model; not executed) | IdPool.IdPoolBaseOnFile.Reset | IdPool.IdPoolBaseOnFile.ResetCorrected |
