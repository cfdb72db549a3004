/**
 * `CentralExecutor` as a class: the fields the executor and its policy update in place, each
 * method proved to take the executor's abstract state (`Model()`) exactly as the matching
 * transition of `Admission` does. Quota slots are real `Quota` objects whose `state` the
 * methods decrement and increment; `Valid()` ties every registered quota's `state` to the
 * free slots the abstract state derives by conservation.
 */
module Central {
  import opened Exceptions
  import opened Quotas
  import opened Admission

  class CentralExecutor {
    const threadSize: int
    const policy: Policy
    var reserved: int
    var quotas: map<TaskClass, Submitter>
    var queue: multiset<Queued>
    var running: seq<Admitted>
    ghost var leaked: multiset<Quota>
    ghost var reserves: seq<Quota>
    ghost var pool: set<Quota>

    ghost function Model(): Sched
      reads this
    {
      Sched(policy, threadSize, reserved, quotas, running, queue, leaked, reserves, pool)
    }

    ghost predicate Valid()
      reads this, pool
    {
      && Inv(Model())
      && (forall q :: q in pool ==> q.state == Remaining(Model(), q))
    }

    /** `new CentralExecutor(threadSize, policy)`. */
    constructor (threadSize: int, policy: Policy)
      requires 0 < threadSize <= MaxInt
      ensures Valid()
      ensures Model() == Initial(threadSize, policy)
    {
      this.threadSize := threadSize;
      this.policy := policy;
      reserved := 0;
      quotas := map[];
      queue := multiset{};
      running := [];
      leaked := multiset{};
      reserves := [];
      pool := {};
      new;
      InitialInv(threadSize, policy);
    }

    /** `hasUnreserved()`: some thread is not covered by the reserve of any registration. */
    function HasUnreserved(): (r: bool)
      reads this
      requires Inv(Model())
      ensures r <==> SumValues(reserves) < threadSize
    {
      threadSize > reserved
    }

    /** `quota(taskClass, reserve, elastic)`, with the policy's `submitter(reserve, elastic)`
        recorded as the pair of quotas it closes over. */
    method RegisterQuota(cls: TaskClass, reserve: Quota, elastic: Quota) returns (r: Outcome)
      requires Valid()
      requires reserve != elastic && reserve !in pool && elastic !in pool
      requires reserve.Valid() && reserve.state == reserve.value
      requires elastic.Valid() && elastic.state == elastic.value
      modifies this
      ensures Valid()
      ensures (r, Model()) == Register(old(Model()), cls, reserve, elastic)
    {
      if reserve.value > threadSize - reserved {
        return Fail(IllegalArgument(NoResource));
      }
      if policy == Pessimism && reserve.value == 0 {
        ghost var s := Model();
        reserved := reserved + reserve.value;
        assert Model() == s;
        return Fail(IllegalArgument(NoneReserve));
      }
      Bind(cls, reserve, elastic);
      r := Pass;
    }

    /** The part of `quota(...)` that succeeds: the tally grows by the reserve and the class
        is bound to a submitter over the two quotas. */
    method Bind(cls: TaskClass, reserve: Quota, elastic: Quota)
      requires Valid()
      requires reserve != elastic && reserve !in pool && elastic !in pool
      requires reserve.Valid() && reserve.state == reserve.value
      requires elastic.Valid() && elastic.state == elastic.value
      requires reserve.value <= threadSize - reserved && !(policy == Pessimism && reserve.value == 0)
      modifies this
      ensures Valid()
      ensures Model() == Register(old(Model()), cls, reserve, elastic).1
    {
      ghost var s := Model();
      RegisterKeepsInv(s, cls, reserve, elastic);
      UntouchedQuotaIsFree(s, reserve);
      UntouchedQuotaIsFree(s, elastic);
      reserved := reserved + reserve.value;
      quotas := quotas[cls := Submitter(reserve, elastic)];
      reserves := reserves + [reserve];
      pool := pool + {reserve, elastic};
      assert Model() == Register(s, cls, reserve, elastic).1;
      assert leaked + multiset{} == leaked;
      RemainingAfterLoss(s, Model(), multiset{});
      forall q | q in pool ensures q.state == Remaining(Model(), q) {
        if q != reserve && q != elastic {
          assert q in old(pool);
        }
      }
    }

    /** `quota.acquire()` and, when it succeeds, `doSubmit`: the task is handed to the pool
        holding one slot of quota. */
    method TryAdmit(task: Task, quota: Quota) returns (ok: bool)
      requires Valid() && quota in pool
      requires policy == Pessimism ==> quota in reserves
      modifies this, quota
      ensures Valid()
      ensures ok <==> old(Remaining(Model(), quota)) > 0
      ensures ok ==> Model() == old(Model()).(running := old(running) + [Admitted(task, quota)])
      ensures !ok ==> Model() == old(Model())
    {
      ghost var s := Model();
      ok := quota.Acquire();
      if ok {
        running := running + [Admitted(task, quota)];
        AdmitKeepsInv(s, Admitted(task, quota));
        RemainingAfterAdmit(s, Admitted(task, quota));
      }
    }

    /** `enqueue(new ComparableTask(task, key))`. */
    method Enqueue(e: Queued)
      requires Valid()
      requires policy == Pessimism ==> e.task.cls in quotas && 0 < e.key <= threadSize
      requires policy == Optimism ==> e.key == -1 || e.key == 0
      modifies this
      ensures Valid()
      ensures Model() == old(Model()).(queue := old(queue) + multiset{e})
    {
      EnqueueKeepsInv(Model(), e, multiset{});
      assert leaked + multiset{} == leaked;
      queue := queue + multiset{e};
    }

    /** The PESSIMISM submitter of a registered class. */
    method SubmitPessimism(task: Task) returns (r: Outcome)
      requires Valid() && policy == Pessimism && task.cls in quotas
      modifies this, pool
      ensures Valid()
      ensures pool == old(pool)
      ensures (r, Model()) == Admission.Execute(old(Model()), task)
    {
      var sub := quotas[task.cls];
      ReserveWithinPool(Model(), task.cls);
      var ok := TryAdmit(task, sub.reserve);
      if !ok {
        Enqueue(Queued(task, sub.reserve.value));
      }
      r := Pass;
    }

    /** The OPTIMISM submitter of a registered class: reserve first, then the elastic quota
        when a thread is unreserved, else the queue. An elastic slot taken while every thread
        is reserved is not given back. */
    method SubmitOptimism(task: Task) returns (r: Outcome)
      requires Valid() && policy == Optimism && task.cls in quotas
      modifies this, pool
      ensures Valid()
      ensures pool == old(pool)
      ensures (r, Model()) == Admission.Execute(old(Model()), task)
    {
      var sub := quotas[task.cls];
      ReserveWithinPool(Model(), task.cls);
      var ok := TryAdmit(task, sub.reserve);
      if !ok {
        ElasticOrQueue(task, sub.elastic);
      }
      r := Pass;
    }

    /** `elastic.acquire() && executor.hasUnreserved()`, then `doSubmit` or `enqueue` with key
        0. When the acquisition succeeds but no thread is unreserved, the slot is lost. */
    method ElasticOrQueue(task: Task, elastic: Quota)
      requires Valid() && policy == Optimism && elastic in pool
      modifies this, elastic
      ensures Valid()
      ensures old(Remaining(Model(), elastic)) > 0 && old(HasUnreserved()) ==>
        Model() == old(Model()).(running := old(running) + [Admitted(task, elastic)])
      ensures old(Remaining(Model(), elastic)) > 0 && !old(HasUnreserved()) ==>
        Model() == old(Model()).(queue := old(queue) + multiset{Queued(task, 0)}, leaked := old(leaked) + multiset{elastic})
      ensures old(Remaining(Model(), elastic)) <= 0 ==>
        Model() == old(Model()).(queue := old(queue) + multiset{Queued(task, 0)})
    {
      ghost var s := Model();
      var elasticOk := elastic.Acquire();
      if elasticOk && HasUnreserved() {
        running := running + [Admitted(task, elastic)];
        AdmitKeepsInv(s, Admitted(task, elastic));
        assert Model() == s.(running := s.running + [Admitted(task, elastic)]);
        RemainingAfterAdmit(s, Admitted(task, elastic));
        forall q | q in pool ensures q.state == Remaining(Model(), q) {
          if q != elastic {
            assert q.state == old(q.state);
          }
        }
      } else if elasticOk {
        EnqueueKeepsInv(s, Queued(task, 0), multiset{elastic});
        leaked := leaked + multiset{elastic};
        queue := queue + multiset{Queued(task, 0)};
        assert Model() == s.(queue := s.queue + multiset{Queued(task, 0)}, leaked := s.leaked + multiset{elastic});
        RemainingAfterLoss(s, Model(), multiset{elastic});
        forall q | q in pool ensures q.state == Remaining(Model(), q) {
          if q != elastic {
            assert q.state == old(q.state);
          }
        }
      } else {
        Enqueue(Queued(task, 0));
      }
    }

    /** `execute(task)`: the registered submitter of the task's class, or the policy's default
        submitter. */
    method Execute(task: Task) returns (r: Outcome)
      requires Valid()
      modifies this, pool
      ensures Valid()
      ensures pool == old(pool)
      ensures (r, Model()) == Admission.Execute(old(Model()), task)
    {
      if task.cls in quotas {
        if policy == Pessimism {
          r := SubmitPessimism(task);
        } else {
          r := SubmitOptimism(task);
        }
      } else if policy == Pessimism {
        r := Fail(RejectedExecution(Unquotaed));
      } else {
        Enqueue(Queued(task, -1));
        r := Pass;
      }
    }

    /** `queue.take()` on a non-empty queue: a task with the smallest key leaves the queue. */
    method Take() returns (e: Queued)
      requires Valid() && queue != multiset{}
      modifies this
      ensures Valid()
      ensures IsHead(e, old(queue))
      ensures Model() == old(Model()).(queue := old(queue) - multiset{e})
    {
      MinKeyExists(queue);
      e :| e in queue && IsHead(e, queue);
      DequeueKeepsInv(Model(), e);
      queue := queue - multiset{e};
    }

    /** `dequeueTo(executor)`: takes a task with the smallest key and executes it again. An
        empty queue is left alone (the source blocks in `take()` until a task arrives). */
    method DequeueTo() returns (next: Option<Queued>, r: Outcome)
      requires Valid()
      modifies this, pool
      ensures Valid()
      ensures pool == old(pool)
      ensures next.None? <==> old(queue) == multiset{}
      ensures next.None? ==> r == Pass && Model() == old(Model())
      ensures next.Some? ==> IsHead(next.value, old(queue))
      ensures next.Some? ==> (r, Model()) == Admission.Execute(old(Model()).(queue := old(queue) - multiset{next.value}), next.value.task)
    {
      if queue == multiset{} {
        return None, Pass;
      }
      var e := Take();
      r := Execute(e.task);
      next := Some(e);
    }

    /** `Decorator.run()` once the task has finished, normally or by an exception: the
        `finally` releases the task's quota and drains the queue. */
    method Complete(i: nat) returns (released: bool, next: Option<Queued>, r: Outcome)
      requires Valid() && i < |running|
      modifies this, pool
      ensures Valid()
      ensures pool == old(pool)
      ensures released
      ensures next.None? <==> old(queue) == multiset{}
      ensures next.Some? ==> IsHead(next.value, old(queue))
      ensures (r, Model()) == Admission.Complete(old(Model()), i, next)
    {
      ghost var s := Model();
      var a := running[i];
      ReleaseSucceeds(s, i);
      ReleaseKeepsInv(s, i);
      RemainingAfterRelease(s, i);
      released := a.quota.Release();
      running := RemoveAt(running, i);
      next, r := DequeueTo();
    }
  }
}
