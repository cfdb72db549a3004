/**
 * Runs of `CentralExecutor` built from fresh objects: the shapes of the executor's unit tests
 * (a placeholder task class registered with a reserve and an elastic quota), and the
 * behaviours of the code that its comments do not describe. Each run is first computed on the
 * abstract state by a lemma, then performed on the class.
 */
module ExecutorScenarios {
  import opened Exceptions
  import opened Quotas
  import opened Admission
  import opened Central

  const Placeholder: TaskClass := "Placeholder"
  const Other: TaskClass := "Other"

  function P(id: nat): Task {
    Task(Placeholder, id)
  }

  /** The state right after `quota(Placeholder.class, reserve, elastic)` on a new executor. */
  function Registered(policy: Policy, threads: int, reserve: Quota, elastic: Quota): Sched {
    Sched(policy, threads, reserve.value, map[Placeholder := Submitter(reserve, elastic)],
          [], multiset{}, multiset{}, [reserve], {reserve, elastic})
  }

  lemma RegisterOnInitial(policy: Policy, threads: int, reserve: Quota, elastic: Quota)
    requires 0 <= reserve.value <= threads
    requires policy == Pessimism ==> reserve.value > 0
    ensures Register(Initial(threads, policy), Placeholder, reserve, elastic)
      == (Pass, Registered(policy, threads, reserve, elastic))
  {
    var s := Initial(threads, policy);
    assert Bound(s, Placeholder, reserve, elastic) == Registered(policy, threads, reserve, elastic);
  }

  /** A new executor with the placeholder class registered. */
  method NewRegistered(threads: int, policy: Policy, reserveValue: int, elasticValue: int)
    returns (executor: CentralExecutor, reserve: Quota, elastic: Quota)
    requires 0 < threads <= MaxInt && 0 <= reserveValue <= threads && 0 <= elasticValue
    requires policy == Pessimism ==> reserveValue > 0
    ensures fresh(executor) && fresh(reserve) && fresh(elastic) && executor.Valid()
    ensures reserve != elastic
    ensures reserve.value == reserveValue && elastic.value == elasticValue
    ensures executor.Model() == Registered(policy, threads, reserve, elastic)
    ensures executor.pool == {reserve, elastic}
  {
    executor := new CentralExecutor(threads, policy);
    reserve := new Quota(reserveValue);
    elastic := new Quota(elasticValue);
    RegisterOnInitial(policy, threads, reserve, elastic);
    var r := executor.RegisterQuota(Placeholder, reserve, elastic);
  }

  /** The completion of the first running task when e is the only queued task. */
  lemma CompleteWithSingleHead(s: Sched, e: Queued, next: Option<Queued>)
    requires 0 < |s.running| && s.queue == multiset{e}
    requires next.Some? && IsHead(next.value, s.queue)
    ensures Complete(s, 0, next) == Execute(Release(s, 0).(queue := multiset{}), e.task)
  {
    assert next.value in multiset{e};
    assert next.value == e;
    assert Release(s, 0).queue - multiset{e} == multiset{};
  }

  lemma HeldByTwo(a: Admitted, b: Admitted, q: Quota)
    ensures HeldBy([a, b], q) == (if a.quota == q then 1 else 0) + (if b.quota == q then 1 else 0)
  {
    assert [a, b] == [a] + [b];
    HeldBySnoc([a], b, q);
    HeldBySnoc([], a, q);
  }

  lemma TasksOfTwo(a: Admitted, b: Admitted)
    ensures Tasks([a, b]) == [a.task, b.task]
  {
  }

  // ---------------------------------------------------------------------------

  lemma ReserveInPessimismRun(reserve: Quota, nil: Quota)
    requires reserve.value == 1 && nil.value == 0 && reserve != nil
    ensures var s1 := Execute(Registered(Pessimism, 2, reserve, nil), P(1)).1;
      var s2 := Execute(s1, P(2)).1;
      && s2.running == [Admitted(P(1), reserve)]
      && s2.queue == multiset{Queued(P(2), 1)}
      && Execute(Release(s2, 0).(queue := multiset{}), P(2)).1.running == [Admitted(P(2), reserve)]
  {
    var s0 := Registered(Pessimism, 2, reserve, nil);
    assert Remaining(s0, reserve) == 1;
    var s1 := Execute(s0, P(1)).1;
    assert s1.running == [Admitted(P(1), reserve)];
    assert HeldBy(s1.running, reserve) == 1;
    var s2 := Execute(s1, P(2)).1;
    assert s2 == s1.(queue := multiset{Queued(P(2), 1)});
    assert Release(s2, 0).(queue := multiset{}) == s0;
  }

  /** PESSIMISM, pool of 2, reserve 1: the second placeholder waits with key 1 and runs on
      the reserve slot the first one gives back. */
  method ReserveInPessimism() returns (before: seq<Task>, waiting: multiset<Queued>, after: seq<Task>)
    ensures before == [P(1)]
    ensures waiting == multiset{Queued(P(2), 1)}
    ensures after == [P(2)]
  {
    var executor, reserve, nil := NewRegistered(2, Pessimism, 1, 0);
    var r1 := executor.Execute(P(1));
    var r2 := executor.Execute(P(2));
    ReserveInPessimismRun(reserve, nil);
    before := Tasks(executor.running);
    waiting := executor.queue;
    ghost var s2 := executor.Model();
    var released, next, r3 := executor.Complete(0);
    CompleteWithSingleHead(s2, Queued(P(2), 1), next);
    after := Tasks(executor.running);
  }

  // ---------------------------------------------------------------------------

  lemma ElasticInOptimismSubmissions(reserve: Quota, elastic: Quota)
    requires reserve.value == 1 && elastic.value == 1 && reserve != elastic
    ensures var s0 := Registered(Optimism, 3, reserve, elastic);
      Execute(Execute(s0, P(1)).1, P(2)).1
      == s0.(running := [Admitted(P(1), reserve), Admitted(P(2), elastic)])
  {
    var s0 := Registered(Optimism, 3, reserve, elastic);
    assert Remaining(s0, reserve) == 1;
    var s1 := Execute(s0, P(1)).1;
    assert s1 == s0.(running := [Admitted(P(1), reserve)]);
    assert HeldBy(s1.running, reserve) == 1 && HeldBy(s1.running, elastic) == 0;
  }

  lemma ElasticInOptimismQueued(reserve: Quota, elastic: Quota)
    requires reserve.value == 1 && elastic.value == 1 && reserve != elastic
    ensures var s0 := Registered(Optimism, 3, reserve, elastic);
      var s2 := s0.(running := [Admitted(P(1), reserve), Admitted(P(2), elastic)]);
      Execute(s2, P(3)).1 == s2.(queue := multiset{Queued(P(3), 0)})
  {
    HeldByTwo(Admitted(P(1), reserve), Admitted(P(2), elastic), reserve);
    HeldByTwo(Admitted(P(1), reserve), Admitted(P(2), elastic), elastic);
  }

  lemma ElasticInOptimismResumed(reserve: Quota, elastic: Quota)
    requires reserve.value == 1 && elastic.value == 1 && reserve != elastic
    ensures var s0 := Registered(Optimism, 3, reserve, elastic);
      var freed := s0.(running := [Admitted(P(2), elastic)]);
      Execute(freed, P(3)).1.running == [Admitted(P(2), elastic), Admitted(P(3), reserve)]
  {
    var s0 := Registered(Optimism, 3, reserve, elastic);
    HeldBySnoc([], Admitted(P(2), elastic), reserve);
    assert [] + [Admitted(P(2), elastic)] == [Admitted(P(2), elastic)];
  }

  lemma ElasticInOptimismRun(reserve: Quota, elastic: Quota)
    requires reserve.value == 1 && elastic.value == 1 && reserve != elastic
    ensures var s1 := Execute(Registered(Optimism, 3, reserve, elastic), P(1)).1;
      var s3 := Execute(Execute(s1, P(2)).1, P(3)).1;
      && s3.running == [Admitted(P(1), reserve), Admitted(P(2), elastic)]
      && s3.queue == multiset{Queued(P(3), 0)}
      && Execute(Release(s3, 0).(queue := multiset{}), P(3)).1.running
         == [Admitted(P(2), elastic), Admitted(P(3), reserve)]
  {
    var s0 := Registered(Optimism, 3, reserve, elastic);
    ElasticInOptimismSubmissions(reserve, elastic);
    ElasticInOptimismQueued(reserve, elastic);
    ElasticInOptimismResumed(reserve, elastic);
    var s3 := s0.(running := [Admitted(P(1), reserve), Admitted(P(2), elastic)], queue := multiset{Queued(P(3), 0)});
    assert Release(s3, 0).(queue := multiset{}) == s0.(running := [Admitted(P(2), elastic)]);
  }

  /** OPTIMISM, pool of 3, reserve 1 and elastic 1: the second placeholder runs on the elastic
      slot, the third waits with key 0 and runs on the reserve slot the first one gives back. */
  method ElasticInOptimism() returns (before: seq<Task>, waiting: multiset<Queued>, after: seq<Task>)
    ensures before == [P(1), P(2)]
    ensures waiting == multiset{Queued(P(3), 0)}
    ensures after == [P(2), P(3)]
  {
    var executor, reserve, elastic := NewRegistered(3, Optimism, 1, 1);
    var r1 := executor.Execute(P(1));
    var r2 := executor.Execute(P(2));
    var r3 := executor.Execute(P(3));
    ElasticInOptimismRun(reserve, elastic);
    TasksOfTwo(Admitted(P(1), reserve), Admitted(P(2), elastic));
    before := Tasks(executor.running);
    waiting := executor.queue;
    ghost var s3 := executor.Model();
    var released, next, r4 := executor.Complete(0);
    CompleteWithSingleHead(s3, Queued(P(3), 0), next);
    assert executor.running == [Admitted(P(2), elastic), Admitted(P(3), reserve)];
    TasksOfTwo(Admitted(P(2), elastic), Admitted(P(3), reserve));
    after := Tasks(executor.running);
  }

  // ---------------------------------------------------------------------------

  /** PESSIMISM refuses a task of a class that was never registered, and keeps nothing of it. */
  method UnquotaedRejectedInPessimism() returns (r: Outcome, running: seq<Admitted>, waiting: multiset<Queued>)
    ensures r == Fail(RejectedExecution(Unquotaed))
    ensures running == [] && waiting == multiset{}
  {
    var executor := new CentralExecutor(1, Pessimism);
    r := executor.Execute(P(1));
    running := executor.running;
    waiting := executor.queue;
  }

  /** A reserve of 3 does not fit a pool of 1; the tally is untouched. */
  method NoResourceForReserve() returns (r: Outcome, reserved: int)
    ensures r == Fail(IllegalArgument(NoResource))
    ensures reserved == 0
  {
    var executor := new CentralExecutor(1, Pessimism);
    var reserve := new Quota(3);
    var elastic := new Quota(5);
    r := executor.RegisterQuota(Placeholder, reserve, elastic);
    reserved := executor.reserved;
  }

  /** `reserve(-1)` is refused before it reaches the executor. */
  method QuotaShouldNotBeNegative() returns (r: Result<Quota>)
    ensures r == Failure(IllegalArgument("Quota should not less than 0."))
  {
    r := NewQuota(-1);
  }

  /** PESSIMISM refuses a zero reserve, after adding it (zero) to the tally; nothing is
      registered. */
  method NoneReserveInPessimism() returns (r: Outcome, registered: bool)
    ensures r == Fail(IllegalArgument(NoneReserve))
    ensures !registered
  {
    var executor := new CentralExecutor(1, Pessimism);
    var reserve := Nil();
    var elastic := new Quota(1);
    r := executor.RegisterQuota(Placeholder, reserve, elastic);
    registered := Placeholder in executor.quotas;
  }

  // ---------------------------------------------------------------------------

  lemma ElasticSlotLostSubmissions(reserve: Quota, elastic: Quota)
    requires reserve.value == 1 && elastic.value == 1 && reserve != elastic
    ensures var s0 := Registered(Optimism, 1, reserve, elastic);
      Execute(Execute(s0, P(1)).1, P(2)).1
        == s0.(running := [Admitted(P(1), reserve)], queue := multiset{Queued(P(2), 0)}, leaked := multiset{elastic})
  {
    var s0 := Registered(Optimism, 1, reserve, elastic);
    assert Remaining(s0, reserve) == 1;
    var s1 := Execute(s0, P(1)).1;
    assert s1 == s0.(running := [Admitted(P(1), reserve)]);
    assert HeldBy(s1.running, reserve) == 1 && HeldBy(s1.running, elastic) == 0;
  }

  lemma ElasticSlotLostResumed(reserve: Quota, elastic: Quota)
    requires reserve.value == 1 && elastic.value == 1 && reserve != elastic
    ensures var freed := Registered(Optimism, 1, reserve, elastic).(leaked := multiset{elastic});
      var s4 := Execute(freed, P(2)).1;
      && s4.running == [Admitted(P(2), reserve)]
      && Remaining(s4, elastic) == 0 && HeldBy(s4.running, elastic) == 0
  {
    var freed := Registered(Optimism, 1, reserve, elastic).(leaked := multiset{elastic});
    assert HeldBy(freed.running, reserve) == 0;
    var s4 := Execute(freed, P(2)).1;
    assert s4 == freed.(running := [Admitted(P(2), reserve)]);
    assert HeldBy(s4.running, elastic) == 0;
  }

  lemma ElasticSlotLostRun(reserve: Quota, elastic: Quota)
    requires reserve.value == 1 && elastic.value == 1 && reserve != elastic
    ensures var s2 := Execute(Execute(Registered(Optimism, 1, reserve, elastic), P(1)).1, P(2)).1;
      var s4 := Execute(Release(s2, 0).(queue := multiset{}), P(2)).1;
      && s2.running == [Admitted(P(1), reserve)]
      && s2.queue == multiset{Queued(P(2), 0)}
      && s4.running == [Admitted(P(2), reserve)]
      && Remaining(s4, elastic) == 0 && HeldBy(s4.running, elastic) == 0
  {
    var s0 := Registered(Optimism, 1, reserve, elastic);
    ElasticSlotLostSubmissions(reserve, elastic);
    ElasticSlotLostResumed(reserve, elastic);
    var s2 := Execute(Execute(s0, P(1)).1, P(2)).1;
    assert Release(s2, 0).(queue := multiset{}) == s0.(leaked := multiset{elastic});
  }

  /** OPTIMISM, pool of 1, reserve 1 and elastic 1: every thread is reserved, so the second
      task takes the elastic slot and is queued anyway. It later runs on the reserve slot, and
      the elastic quota is left with no free slot although nothing runs on it. */
  method ElasticSlotLost() returns (after: seq<Task>, elasticFree: int, elasticValue: int)
    ensures after == [P(2)]
    ensures elasticValue == 1 && elasticFree == 0
  {
    var executor, reserve, elastic := NewRegistered(1, Optimism, 1, 1);
    var r1 := executor.Execute(P(1));
    var r2 := executor.Execute(P(2));
    ElasticSlotLostRun(reserve, elastic);
    ghost var s2 := executor.Model();
    var released, next, r3 := executor.Complete(0);
    CompleteWithSingleHead(s2, Queued(P(2), 0), next);
    after := Tasks(executor.running);
    elasticFree := elastic.state;
    elasticValue := elastic.value;
  }

  // ---------------------------------------------------------------------------

  lemma OptimismOverAdmitsRun(reserve: Quota, elastic: Quota)
    requires reserve.value == 0 && elastic.value == 2 && reserve != elastic
    ensures Execute(Execute(Registered(Optimism, 1, reserve, elastic), P(1)).1, P(2)).1.running
      == [Admitted(P(1), elastic), Admitted(P(2), elastic)]
  {
    var s0 := Registered(Optimism, 1, reserve, elastic);
    assert Remaining(s0, reserve) == 0 && Remaining(s0, elastic) == 2;
    var s1 := Execute(s0, P(1)).1;
    assert s1 == s0.(running := [Admitted(P(1), elastic)]);
    assert HeldBy(s1.running, reserve) == 0 && HeldBy(s1.running, elastic) == 1;
  }

  /** OPTIMISM admits on the elastic quota whenever some thread is unreserved, however many
      tasks already run: a pool of 1 with an elastic quota of 2 admits two tasks at once. */
  method OptimismOverAdmits() returns (admitted: seq<Task>, threads: int)
    ensures admitted == [P(1), P(2)]
    ensures threads == 1 && |admitted| > threads
  {
    var executor, reserve, elastic := NewRegistered(1, Optimism, 0, 2);
    var r1 := executor.Execute(P(1));
    var r2 := executor.Execute(P(2));
    OptimismOverAdmitsRun(reserve, elastic);
    admitted := Tasks(executor.running);
    threads := executor.threadSize;
  }

  // ---------------------------------------------------------------------------

  lemma UnregisteredBlocksQueueRun(reserve: Quota, nil: Quota)
    requires reserve.value == 1 && nil.value == 0 && reserve != nil
    ensures var s0 := Registered(Optimism, 1, reserve, nil);
      var s3 := Execute(Execute(Execute(s0, P(1)).1, P(2)).1, Task(Other, 3)).1;
      && s3.running == [Admitted(P(1), reserve)]
      && s3.queue == multiset{Queued(P(2), 0), Queued(Task(Other, 3), -1)}
      && s3.registry == s0.registry
  {
    var s0 := Registered(Optimism, 1, reserve, nil);
    assert Remaining(s0, reserve) == 1;
    var s1 := Execute(s0, P(1)).1;
    assert s1 == s0.(running := [Admitted(P(1), reserve)]);
    assert HeldBy(s1.running, reserve) == 1 && HeldBy(s1.running, nil) == 0;
    var s2 := Execute(s1, P(2)).1;
    assert s2 == s1.(queue := multiset{Queued(P(2), 0)});
  }

  /** The completion in `UnregisteredBlocksQueue`: the head is the unregistered task, which
      goes straight back. */
  lemma UnregisteredHeadRequeued(s: Sched, next: Option<Queued>)
    requires Inv(s) && s.policy == Optimism && |s.running| == 1 && Other !in s.registry
    requires s.queue == multiset{Queued(P(2), 0), Queued(Task(Other, 3), -1)}
    requires next.Some? && IsHead(next.value, s.queue)
    ensures Complete(s, 0, next).1.running == []
    ensures Complete(s, 0, next).1.queue == s.queue
  {
    UnregisteredDrainFirst(s, next.value, Task(Other, 3));
    assert next.value == Queued(Task(Other, 3), -1);
    QueueStuckBehindUnregistered(s, 0, next.value);
  }

  /** OPTIMISM, pool of 1, reserve 1: a placeholder waits with key 0 and a task of an
      unregistered class waits with key -1. When the running placeholder completes, the
      unregistered task is taken first and queued again, so the freed slot stays idle and the
      placeholder keeps waiting. */
  method UnregisteredBlocksQueue() returns (after: seq<Admitted>, waiting: multiset<Queued>)
    ensures after == []
    ensures waiting == multiset{Queued(P(2), 0), Queued(Task(Other, 3), -1)}
  {
    var executor, reserve, nil := NewRegistered(1, Optimism, 1, 0);
    var r1 := executor.Execute(P(1));
    var r2 := executor.Execute(P(2));
    var r3 := executor.Execute(Task(Other, 3));
    UnregisteredBlocksQueueRun(reserve, nil);
    ghost var s3 := executor.Model();
    var released, next, r4 := executor.Complete(0);
    UnregisteredHeadRequeued(s3, next);
    after := executor.running;
    waiting := executor.queue;
  }
}
